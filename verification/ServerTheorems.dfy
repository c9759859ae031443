/** The server's promises over whole runs: table limits, who may write to the TUN device, and
    the two-phase reload. */
module ServerTheorems {
  import opened Net
  import opened InboundOrder
  import opened Login
  import opened SessionTable
  import opened Cidr
  import opened ServerMachine
  import opened ServerInvariant
  import opened Permission

  // ----- Limits -----

  /** The sessions of one IP address whose handshake is not finished, by position. */
  ghost function UnfinishedFrom(ip: Ipv4, list: seq<Session>): set<int> {
    set i | 0 <= i < |list| && !list[i].established && list[i].peer.Inet? && list[i].peer.ip == ip
  }

  lemma {:induction false} UnfinishedCounted(list: seq<Session>)
    ensures |set i | 0 <= i < |list| && !list[i].established| == Count(Pending, list)
    ensures forall ip: Ipv4 :: |UnfinishedFrom(ip, list)| == Count(PendingFrom(ip), list)
  {
    CountIs(Pending, list);
    assert Positions(Pending, list) == set i | 0 <= i < |list| && !list[i].established;
    forall ip: Ipv4 ensures |UnfinishedFrom(ip, list)| == Count(PendingFrom(ip), list) {
      CountIs(PendingFrom(ip), list);
      assert Positions(PendingFrom(ip), list) == UnfinishedFrom(ip, list);
    }
  }

  /** The session table in every state of every run: every peer is listed once; at most
      `maxPending` sessions have not finished their handshake, two of them from one IP address;
      the established ones are at most `maxClients` addresses. */
  lemma TableLimits(cfg: Config, update: Update, states: seq<State>, steps: seq<Step>, k: nat)
    requires IsRun(cfg, update, states, steps) && k < |states|
    ensures var list := states[k].sessions;
            && (forall i, j :: 0 <= i < j < |list| ==> list[i].peer != list[j].peer)
            && |set i | 0 <= i < |list| && !list[i].established| <= cfg.maxPending
            && (forall ip: Ipv4 :: |UnfinishedFrom(ip, list)| <= 2)
            && |list| <= cfg.maxClients - 1 + cfg.maxPending
            && |set s | s in list && s.established :: s.address| <= cfg.maxClients
    ensures forall i :: 0 <= i < |states[k].sessions| ==>
              var s := states[k].sessions[i];
              && (s.authenticated ==> s.established)
              && (s.established <==> s.fingerprint.Some?)
              && (s.established <==> s.establishedAt.Some?)
  {
    RunsAreGood(cfg, update, states, steps, k);
    var list := states[k].sessions;
    hide UnfinishedFrom;
    UnfinishedCounted(list);
    forall i | 0 <= i < |states[k].sessions| ensures RecordOk(states[k].now, states[k].sessions[i]) {
      assert SessionOk(states[k], states[k].sessions[i]);
    }
  }

  /** The count of established sessions after a handshake is accepted. */
  lemma SettledCount(cfg: Config, st: State, i: nat, h: HandshakeResult, after: seq<Session>, st': State)
    requires Shape(st) && i < |st.sessions| && !st.sessions[i].established && h.Complete?
    requires SettleConnected(cfg, Count(Established, st.sessions), Establish(st, i, h), i, after, st')
    ensures var before := Count(Established, st.sessions);
            var duplicates := Count(DuplicateOf(h.first, st.sessions[i].peer), st.sessions);
            Count(Established, st'.sessions)
            == if before >= cfg.maxClients && duplicates == 0 then before
               else if h.first !in Current(st).logins then before + 1 - duplicates
               else before + 1
  {
    var s := Establish(st, i, h).sessions[i];
    var mid := st.sessions[i := s];
    CountUpdate(Established, st.sessions, i, s);
    CountUpdate(DuplicateOf(s.address, s.peer), st.sessions, i, s);
    if Count(Established, st.sessions) >= cfg.maxClients && Count(DuplicateOf(s.address, s.peer), mid) == 0 {
      CountSwapRemove(Established, mid, i);
    } else if s.authenticated {
      ReplacedPermuted(mid, s.address, s.peer, after);
    }
  }

  lemma ReplacedPermuted(list: seq<Session>, address: Ipv4, peer: Peer, after: seq<Session>)
    requires multiset(after) == multiset(Filter(NotDuplicateOf(address, peer), list))
    ensures Count(Established, after) == Count(Established, list) - Count(DuplicateOf(address, peer), list)
  {
    ReplacedCount(list, address, peer);
    CountPermuted(Established, after, Filter(NotDuplicateOf(address, peer), list));
  }

  /** `established <= max_clients` survives a completed handshake exactly when the server was
      not full, or nobody is being replaced, or no login is required at the address: a session
      that still has to log in does not replace its predecessor yet. */
  lemma EstablishedLimitIff(cfg: Config, st: State, i: nat, h: HandshakeResult, after: seq<Session>, st': State)
    requires Shape(st) && i < |st.sessions| && !st.sessions[i].established
    requires HandshakeStep(cfg, st, i, h, after, st')
    requires CertificateAccepted(cfg, Current(st).bindings, st.sessions[i].peer, h)
    requires Count(Established, st.sessions) <= cfg.maxClients
    ensures Count(Established, st'.sessions) <= cfg.maxClients
       <==> || Count(Established, st.sessions) < cfg.maxClients
            || Count(DuplicateOf(h.first, st.sessions[i].peer), st.sessions) == 0
            || h.first !in Current(st).logins
  {
    SettledCount(cfg, st, i, h, after, st');
  }

  lemma {:induction false} ReplacedCount(list: seq<Session>, address: Ipv4, peer: Peer)
    ensures Count(Established, list)
         == Count(Established, Filter(NotDuplicateOf(address, peer), list)) + Count(DuplicateOf(address, peer), list)
  {
    if list != [] {
      var n := |list| - 1;
      var kept := Filter(NotDuplicateOf(address, peer), list[..n]);
      ReplacedCount(list[..n], address, peer);
      if Matches(NotDuplicateOf(address, peer), list[n]) {
        CountPush(Established, kept, list[n]);
      } else {
        assert Filter(NotDuplicateOf(address, peer), list) == kept;
      }
    }
  }

  // ----- Admission and replacement -----

  /** Exactly when a datagram of an unknown peer gets a session. */
  lemma {:induction false} AdmittedIff(cfg: Config, st: State, peer: Peer, a: Admission)
    requires Shape(st)
    ensures Locate(cfg, st, peer, a).isNew
       <==> && PositionOf(peer, st.sessions).None? && PeerIp(peer).Some?
            && !a.banned && a.accept.CookieVerified? && a.decision.Allowed? && a.acceptorOk
            && Count(Established, st.sessions) < cfg.maxClients
            && Count(PendingFrom(PeerIp(peer).value), st.sessions) < MAX_PENDING_PER_IP
  {
    hide Matches, Count, OldestPending, SwapRemove, Filter;
  }

  /** What an admission costs: nothing while there is room, else the least recently active
      pending session. */
  lemma {:induction false} AdmissionCost(cfg: Config, st: State, peer: Peer, ip: Ipv4, acceptorOk: bool)
    requires ValidConfig(cfg) && AdmitIfRoom(cfg, st, peer, ip, acceptorOk).isNew
    ensures var list, after := st.sessions, AdmitIfRoom(cfg, st, peer, ip, acceptorOk).state.sessions;
            if Count(Pending, list) < cfg.maxPending then after == list + [NewSession(st, peer)]
            else exists i :: 0 <= i < |list| && Evictable(list, i)
                             && multiset(after) == multiset(list) - multiset{list[i]} + multiset{NewSession(st, peer)}
  {
    hide Matches, Count;
    if Count(Pending, st.sessions) >= cfg.maxPending {
      CountZeroIff(Pending, st.sessions);
      PendingExists(st.sessions);
      var i := OldestPending(st.sessions).value;
      assert Evictable(st.sessions, i);
      SwapRemoveIsRemoval(st.sessions, i);
    }
  }

  /** A pending session none of the pending ones has been silent longer than. */
  predicate Evictable(list: seq<Session>, i: nat)
    requires i < |list|
  {
    !list[i].established
    && forall j :: 0 <= j < |list| && !list[j].established ==> list[i].lastActivity <= list[j].lastActivity
  }

  lemma {:induction false} PendingExists(list: seq<Session>)
    requires exists s :: s in list && Matches(Pending, s)
    ensures OldestPending(list).Some?
  {
    var s :| s in list && Matches(Pending, s);
    var j :| 0 <= j < |list| && list[j] == s;
  }

  /** Where no login is required the newest connection wins: once its certificate is accepted,
      and it is not turned away because the server is full, it is the only established session
      at its address. */
  lemma {:induction false} NewestWins(cfg: Config, st: State, i: nat, h: HandshakeResult, after: seq<Session>,
                                      st': State)
    requires Shape(st) && i < |st.sessions| && !st.sessions[i].established && Distinct(st.sessions)
    requires HandshakeStep(cfg, st, i, h, after, st')
    requires CertificateAccepted(cfg, Current(st).bindings, st.sessions[i].peer, h) && h.first !in Current(st).logins
    requires Count(Established, st.sessions) < cfg.maxClients
             || Count(DuplicateOf(h.first, st.sessions[i].peer), st.sessions) > 0
    ensures forall s :: s in st'.sessions && s.established && s.address == h.first ==>
              s == EstablishedSession(st, st.sessions[i], h.fingerprint, h.first)
    ensures EstablishedSession(st, st.sessions[i], h.fingerprint, h.first) in st'.sessions
  {
    hide Count, Filter, Distinct;
    var peer := st.sessions[i].peer;
    var s := EstablishedSession(st, st.sessions[i], h.fingerprint, h.first);
    var mid := st.sessions[i := s];
    CountUpdate(DuplicateOf(h.first, peer), st.sessions, i, s);
    FilterIsRemoval(NotDuplicateOf(h.first, peer), mid);
    SameMembers(st'.sessions, Filter(NotDuplicateOf(h.first, peer), mid));
    OnlyPeer(st.sessions, i, s);
  }

  lemma {:induction false} OnlyPeer(list: seq<Session>, i: nat, s: Session)
    requires Distinct(list) && i < |list| && s.peer == list[i].peer
    ensures s in list[i := s] && forall t :: t in list[i := s] && t != s ==> t.peer != s.peer
  {
    var mid := list[i := s];
    assert mid[i] in mid;
    forall t | t in mid && t != s ensures t.peer != s.peer {
      var j :| 0 <= j < |mid| && mid[j] == t;
      assert list[j].peer != list[i].peer;
    }
  }

  lemma {:induction false} SameMembers(a: seq<Session>, b: seq<Session>)
    requires multiset(a) == multiset(b)
    ensures forall s :: s in a <==> s in b
  {
    forall s ensures s in a <==> s in b {
      assert s in a <==> s in multiset(a);
    }
  }

  // ----- Provenance -----

  lemma ConnectedOnce(cfg: Config, st: State, i: nat, j: nat)
    requires Good(cfg, st) && i < |st.log| && j < |st.log| && i != j
    requires st.log[i].Connected? && st.log[j].Connected?
    ensures st.log[i].serial != st.log[j].serial
  {
    var first, second := if i < j then i else j, if i < j then j else i;
    assert st.log[first] in st.log[..second];
    assert Justified(cfg, st.updates, st.log[..second], st.log[second]);
  }

  lemma LoginOnce(cfg: Config, st: State, i: nat, j: nat)
    requires Good(cfg, st) && i < |st.log| && j < |st.log| && i != j
    requires st.log[i].LoginFrame? && st.log[j].LoginFrame?
    ensures st.log[i].serial != st.log[j].serial
  {
    var first, second := if i < j then i else j, if i < j then j else i;
    assert st.log[first] in st.log[..second];
    assert Justified(cfg, st.updates, st.log[..second], st.log[second]);
  }

  /** Of a session, only one login frame is ever considered. */
  lemma {:induction false} OneLoginPerSession(cfg: Config, update: Update, states: seq<State>,
                                              steps: seq<Step>, k: nat, i: nat, j: nat)
    requires IsRun(cfg, update, states, steps) && k < |states|
    requires i < |states[k].log| && j < |states[k].log| && i != j
    requires states[k].log[i].LoginFrame? && states[k].log[j].LoginFrame?
    ensures states[k].log[i].serial != states[k].log[j].serial
  {
    RunsAreGood(cfg, update, states, steps, k);
    hide Next;
    LoginOnce(cfg, states[k], i, j);
  }

  /** Event m is the one login frame of the session connected by event i, and it is the
      client's encoding of the credentials then configured for the session's address. */
  ghost predicate SoleLogin(st: State, i: nat, m: nat)
    requires i < m < |st.log| && st.log[i].Connected?
  {
    var c, l := st.log[i], st.log[m];
    && l.LoginFrame? && l.serial == c.serial && l.accepted
    && l.under < |st.updates| && c.address in st.updates[l.under].logins
    && l.frame == Encode(st.updates[l.under].logins[c.address])
    && forall n :: 0 <= n < |st.log| && n != m && st.log[n].LoginFrame? ==> st.log[n].serial != c.serial
  }

  /** Event i let the session of event j in: its certificate was bound to its address and passed
      every check, and if that address required a login, the login came in between. */
  ghost predicate AdmittedBy(cfg: Config, st: State, i: nat, j: nat)
    requires i < j < |st.log|
  {
    var c := st.log[i];
    && c.Connected? && c.serial == st.log[j].serial
    && c.evidence.peer.Inet? && (cfg.verifySan ==> c.evidence.san == Passes) && c.evidence.source == Passes
    && c.under < |st.updates| && Lookup(st.updates[c.under].bindings, c.address) == Some(c.fingerprint)
    && (c.address in st.updates[c.under].logins ==> exists m :: i < m < j && SoleLogin(st, i, m))
  }

  lemma LoginIsSole(cfg: Config, st: State, i: nat, m: nat)
    requires Good(cfg, st) && i < |st.log| && m < |st.log| && st.log[i].Connected?
    requires st.log[m].LoginFrame? && st.log[m].serial == st.log[i].serial && st.log[m].accepted
    ensures i < m && SoleLogin(st, i, m)
  {
    var l := st.log[m];
    assert Justified(cfg, st.updates, st.log[..m], l);
    var c :| ExpectedLogin(st.updates, st.log[..m], l, c);
    var i' :| 0 <= i' < m && st.log[i'] == c;
    if i' != i { ConnectedOnce(cfg, st, i, i'); }
    MatchesIffEncoding(l.frame, st.updates[l.under].logins[c.address]);
    forall n | 0 <= n < |st.log| && n != m && st.log[n].LoginFrame? ensures st.log[n].serial != c.serial {
      LoginOnce(cfg, st, n, m);
    }
  }

  lemma ClearedIsAdmitted(cfg: Config, st: State, j: nat, c: Event) returns (i: nat)
    requires Good(cfg, st) && j < |st.log| && Cleared(st.log[..j], c) && c.serial == st.log[j].serial
    ensures i < j && st.log[i] == c && AdmittedBy(cfg, st, i, j)
  {
    i :| 0 <= i < j && st.log[i] == c;
    assert Justified(cfg, st.updates, st.log[..i], c);
    if c.loginRequired {
      var l :| l in st.log[..j] && l.LoginFrame? && l.serial == c.serial && l.accepted;
      var m :| 0 <= m < j && st.log[m] == l;
      LoginIsSole(cfg, st, i, m);
    }
  }

  /** Every packet handed to the TUN device came from a session that was let in, carries that
      session's address as its source, and goes to a destination the policy permits. */
  lemma TunWritesAreAuthorised(cfg: Config, update: Update, states: seq<State>, steps: seq<Step>, k: nat, j: nat)
    requires IsRun(cfg, update, states, steps) && k < |states|
    requires j < |states[k].log| && states[k].log[j].TunWrite?
    ensures exists i :: 0 <= i < j && AdmittedBy(cfg, states[k], i, j)
                        && PacketAddresses(states[k].log[j].packet).Some?
                        && PacketAddresses(states[k].log[j].packet).value.0 == states[k].log[i].address
                        && Permitted(cfg.policy, PacketAddresses(states[k].log[j].packet).value.1)
  {
    var st := states[k];
    RunsAreGood(cfg, update, states, steps, k);
    assert Justified(cfg, st.updates, st.log[..j], st.log[j]);
    var c :| ExpectedWrite(cfg, st.log[..j], st.log[j], c);
    var i := ClearedIsAdmitted(cfg, st, j, c);
    PermittedIff(cfg.policy, PacketAddresses(st.log[j].packet).value.1);
  }

  /** A packet read from the TUN device is queued only for sessions that were let in: a unicast
      one for the session at its destination address, the others as the policy permits. */
  lemma RoutingIsAuthorised(cfg: Config, update: Update, states: seq<State>, steps: seq<Step>, k: nat, j: nat)
    requires IsRun(cfg, update, states, steps) && k < |states|
    requires j < |states[k].log| && states[k].log[j].Routed?
    ensures PacketAddresses(states[k].log[j].packet).Some?
    ensures exists i :: 0 <= i < j && AdmittedBy(cfg, states[k], i, j)
                        && var destination := PacketAddresses(states[k].log[j].packet).value.1;
                           if ToEverybody(cfg.policy, destination) || ToGroup(destination)
                           then Permitted(cfg.policy, destination)
                           else destination == states[k].log[i].address
  {
    var st := states[k];
    RunsAreGood(cfg, update, states, steps, k);
    assert Justified(cfg, st.updates, st.log[..j], st.log[j]);
    var c :| ExpectedRoute(cfg, st.log[..j], st.log[j], c);
    var i := ClearedIsAdmitted(cfg, st, j, c);
    PermittedIff(cfg.policy, PacketAddresses(st.log[j].packet).value.1);
  }

  // ----- Two-phase reload -----

  predicate Listed(update: Update, s: Session) {
    s.fingerprint.Some? && Lookup(update.bindings, s.address) == s.fingerprint
  }

  /** The retain of a reload leaves exactly the established sessions that the new configuration
      lists and whose login it does not change. */
  lemma RetainIsExact(cfg: Config, st: State, update: Update, st': State)
    requires Next(cfg, st, Retain(update), st')
    ensures forall s :: s in st'.sessions
                   <==> var previous := st.updates[|st.updates| - 1];
                        && s in st.sessions && s.established && s.fingerprint.Some?
                        && s.address in update.bindings && update.bindings[s.address] == s.fingerprint.value
                        && (if s.address in update.logins then
                              s.address in previous.logins
                              && previous.logins[s.address] == update.logins[s.address]
                            else s.address !in previous.logins)
    ensures st'.updates == st.updates + [update]
  {
    FilterIsRemoval(Authorised(update, st.updates[|st.updates| - 1].logins), st.sessions);
  }

  /** A session that the newest configuration does not list was established after that
      configuration's retain, by a decrypt thread that had not taken it yet; one that decrypt
      establishes under the newest configuration is listed by it. */
  lemma UnlistedOnlyInWindow(cfg: Config, update: Update, states: seq<State>, steps: seq<Step>, k: nat, i: nat)
    requires IsRun(cfg, update, states, steps) && k < |states| && i < |states[k].sessions|
    requires states[k].sessions[i].established
    ensures var st, s := states[k], states[k].sessions[i];
            var newest := |st.updates| - 1;
            && s.boundUnder <= s.retainedAfter <= newest
            && Listed(st.updates[s.boundUnder], s)
            && (!Listed(st.updates[newest], s) ==> s.boundUnder < newest && s.retainedAfter == newest)
  {
    RunsAreGood(cfg, update, states, steps, k);
    assert SessionOk(states[k], states[k].sessions[i]);
  }

  /** Across the configurations retained since a session was established, its binding and its
      login never changed. */
  lemma SurvivorsUnchanged(cfg: Config, update: Update, states: seq<State>, steps: seq<Step>, k: nat, i: nat, v: nat)
    requires IsRun(cfg, update, states, steps) && k < |states| && i < |states[k].sessions|
    requires states[k].sessions[i].established
    requires states[k].sessions[i].retainedAfter < v < |states[k].updates|
    ensures var st, s := states[k], states[k].sessions[i];
            && Listed(st.updates[v], s)
            && s.retainedAfter < |st.updates|
            && Lookup(st.updates[v].logins, s.address) == Lookup(st.updates[s.retainedAfter].logins, s.address)
  {
    RunsAreGood(cfg, update, states, steps, k);
    SameLogin(states[k], states[k].sessions[i], v);
  }

  lemma {:induction false} SameLogin(st: State, s: Session, v: nat)
    requires SessionOk(st, s) && s.established && s.retainedAfter <= v < |st.updates|
    ensures Lookup(st.updates[v].logins, s.address) == Lookup(st.updates[s.retainedAfter].logins, s.address)
  {
    if s.retainedAfter < v {
      SameLogin(st, s, v - 1);
    }
  }

  // ----- Inbound data -----

  /** A session is marked for the next drain pass exactly when, since its last read that found
      nothing or failed, wolfSSL has taken a datagram, said that it has data, given plaintext, or
      asked to write. */
  lemma InjectedIsRead(cfg: Config, update: Update, states: seq<State>, steps: seq<Step>, k: nat, i: nat)
    requires IsRun(cfg, update, states, steps) && k < |states| && i < |states[k].sessions|
    ensures var inbound := states[k].sessions[i].inbound;
            inbound.drainPending
            <==> exists e :: 0 <= e < |inbound.contacts|
                             && (match inbound.contacts[e]
                                 case Inject(Refusal) => false
                                 case Inject(_) => true
                                 case Read(Data(packet)) => |packet| > 0
                                 case Read(WantWrite) => true
                                 case Read(_) => false)
                             && forall f :: e < f < |inbound.contacts| ==>
                                  inbound.contacts[f] !in [Read(WantRead), Read(ReadError), Read(Data([]))]
  {
    RunsAreGood(cfg, update, states, steps, k);
    assert SessionOk(states[k], states[k].sessions[i]);
    var contacts := states[k].sessions[i].inbound.contacts;
    forall f | 0 <= f < |contacts|
      ensures Lowers(contacts[f]) <==> contacts[f] in [Read(WantRead), Read(ReadError), Read(Data([]))]
      ensures Raises(contacts[f]) <==> match contacts[f]
                                       case Inject(Refusal) => false
                                       case Inject(_) => true
                                       case Read(Data(packet)) => |packet| > 0
                                       case Read(WantWrite) => true
                                       case Read(_) => false
    {
    }
    if states[k].sessions[i].inbound.drainPending {
      var e :| 0 <= e < |contacts| && Raises(contacts[e]) && forall f :: e < f < |contacts| ==> !Lowers(contacts[f]);
    }
  }

  // ----- Inbound order -----

  /** Per session, datagrams reach a successful inject in arrival order and at most once, a
      waiting one before every later one, and every arrival is accounted for. */
  lemma InboundOrderKept(cfg: Config, update: Update, states: seq<State>, steps: seq<Step>, k: nat, i: nat)
    requires IsRun(cfg, update, states, steps) && k < |states| && i < |states[k].sessions|
    ensures Ordered(states[k].sessions[i].inbound)
  {
    RunsAreGood(cfg, update, states, steps, k);
    assert SessionOk(states[k], states[k].sessions[i]);
  }
}
