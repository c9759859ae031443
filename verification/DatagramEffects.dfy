/** What one datagram does: to a session it belongs to, to the table when its sender is unknown,
    and when a handshake completes. */
module DatagramEffects {
  import opened Net
  import opened InboundOrder
  import opened Login
  import opened SessionTable
  import opened ServerMachine
  import opened ServerInvariant
  import opened TurnEffects

  // ----- A datagram of a known peer -----

  /** A datagram waits behind earlier ones, up to 512 of them; otherwise wolfSSL decides. */
  lemma {:induction false} ArrivalFate(b: Inbound, datagram: Bytes, result: InjectResult)
    ensures var after := Arrive(b, datagram, result);
            && after.arrived == b.arrived + [datagram]
            && after.fates == b.fates + [if |b.pending| >= 512 then Dropped
                                         else if b.pending != [] || result == AppDataReady then Waiting
                                         else if result == Accepted then Injected
                                         else Refused]
            && after.contacts == b.contacts + (if b.pending == [] then [Inject(result)] else [])
            && after.pending == b.pending + (if after.fates[|b.fates|] == Waiting then [datagram] else [])
            && after.injected == b.injected + (if after.fates[|b.fates|] == Injected then [datagram] else [])
  {
    assert b.pending + [] == b.pending && b.injected + [] == b.injected && b.contacts + [] == b.contacts;
  }

  function Took(s: Session, bytes: Bytes, inject: InjectResult): Session {
    s.(inbound := Arrive(s.inbound, bytes, inject))
  }

  /** It touches no other session, and nothing else of its own. */
  lemma {:induction false} KnownPeer(cfg: Config, st: State, d: Datagram, a: Admission, inject: InjectResult, i: nat)
    requires i < |st.sessions| && st.sessions[i].peer == d.peer && Distinct(st.sessions)
    ensures var located := Locate(cfg, st, d.peer, a);
            && located == Located(st, Some(i), false)
            && Arrived(located, d.bytes, inject)
               == st.(sessions := st.sessions[i := Took(st.sessions[i], d.bytes, inject)], phase := Top)
            && (InjectRefused(located, inject) <==> st.sessions[i].inbound.pending == [] && inject == Refusal)
  {
    hide Arrive;
    OnlyPosition(st.sessions, i);
  }

  /** A datagram of an established peer, or one that wolfSSL refuses, ends there. */
  lemma {:induction false} NoHandshake(cfg: Config, st: State, d: Datagram, a: Admission, inject: InjectResult,
                                       h: HandshakeResult, after: seq<Session>, st': State, i: nat)
    requires Next(cfg, st, Receive(d, a, inject, h, after), st') && Distinct(st.sessions)
    requires i < |st.sessions| && st.sessions[i].peer == d.peer
    requires st.sessions[i].established || (st.sessions[i].inbound.pending == [] && inject == Refusal)
    ensures st' == st.(sessions := st.sessions[i := Took(st.sessions[i], d.bytes, inject)], phase := Top)
  {
    hide Arrive, Locate, Distinct;
    KnownPeer(cfg, st, d, a, inject, i);
  }

  lemma {:induction false} OnlyPosition(list: seq<Session>, i: nat)
    requires Distinct(list) && i < |list|
    ensures PositionOf(list[i].peer, list) == Some(i)
  {
    assert list[i] in list;
  }

  // ----- A datagram of an unknown peer -----

  /** A new session is pending, not let in, and alive from now on. */
  lemma {:induction false} FreshSession(cfg: Config, st: State, peer: Peer, a: Admission)
    requires Shape(st) && Locate(cfg, st, peer, a).isNew
    ensures var r := Locate(cfg, st, peer, a);
            && r.index == Some(|r.state.sessions| - 1) && r.state.stopped == st.stopped && r.state.wakePending
            && r.state.nextSerial == st.nextSerial + 1
            && var s := r.state.sessions[r.index.value];
               && s.serial == st.nextSerial && s.peer == peer && s.lastActivity == st.now
               && !s.established && !s.authenticated && !s.loginAttempted
               && s.fingerprint.None? && s.establishedAt.None? && s.dtlsDeadline.None? && s.rawTx == []
               && !s.inbound.drainPending && s.inbound.pending == [] && s.inbound.arrived == []
               && s.inbound.fates == [] && s.inbound.injected == [] && s.inbound.contacts == []
  {
    hide Count, Filter, SwapRemove, OldestPending, PositionOf;
  }

  /** The datagram ended in a ban. */
  predicate BanBegins(peer: Peer, a: Admission) {
    peer.Inet? && !a.banned && a.accept == CookieVerified && a.decision == BannedNow
  }

  /** The datagram would have been admitted, but no further acceptor could be made. */
  predicate AcceptorLost(cfg: Config, st: State, peer: Peer, a: Admission) {
    && peer.Inet? && !a.banned && !a.acceptorOk
    && (|| a.accept == AcceptError
        || (a.accept == CookieVerified && a.decision == Allowed
            && Count(Established, st.sessions) < cfg.maxClients
            && Count(PendingFrom(peer.ip), st.sessions) < 2))
  }

  /** Without a new session: a ban removes the pending sessions of the address and no others, a
      lost acceptor stops the server, and otherwise nothing happens. */
  lemma {:induction false} NotAdmitted(cfg: Config, st: State, peer: Peer, a: Admission)
    requires Shape(st) && (forall s :: s in st.sessions ==> s.peer != peer) && !Locate(cfg, st, peer, a).isNew
    ensures var r := Locate(cfg, st, peer, a);
            && r.index.None?
            && (BanBegins(peer, a) ==>
                  forall s :: s in r.state.sessions
                         <==> s in st.sessions && !(!s.established && s.peer.Inet? && s.peer.ip == peer.ip))
            && (r.state.stopped <==> if peer.Inet? && !a.banned && a.accept == AcceptError then !a.acceptorOk
                                     else st.stopped || AcceptorLost(cfg, st, peer, a))
            && (!BanBegins(peer, a) && !AcceptorLost(cfg, st, peer, a) ==> r.state.sessions == st.sessions)
  {
    hide Count, SwapRemove, OldestPending, PositionOf, Filter;
    NoPosition(st.sessions, peer);
    if peer.Inet? { Sweep(st.sessions, peer.ip); }
    hide Matches;
  }

  lemma {:induction false} Sweep(list: seq<Session>, ip: Ipv4)
    ensures forall s :: s in Filter(NotPendingFrom(ip), list)
                   <==> s in list && !(!s.established && s.peer.Inet? && s.peer.ip == ip)
  {
    FilterIsRemoval(NotPendingFrom(ip), list);
  }

  lemma {:induction false} NoPosition(list: seq<Session>, peer: Peer)
    requires forall s :: s in list ==> s.peer != peer
    ensures PositionOf(peer, list).None?
  {
  }

  // ----- The handshake -----

  /** Every check of the certificate, one by one. */
  ghost predicate Acceptable(cfg: Config, bindings: map<Ipv4, Fingerprint>, peer: Peer, h: HandshakeResult) {
    && h.Complete?
    && (exists address :: address in bindings && bindings[address] == h.fingerprint)
    && (cfg.verifySan ==> h.san == Passes)
    && peer.Inet?
    && h.source == Passes
  }

  lemma {:induction false} AcceptableIff(cfg: Config, bindings: map<Ipv4, Fingerprint>, peer: Peer, h: HandshakeResult)
    ensures Acceptable(cfg, bindings, peer, h) <==> CertificateAccepted(cfg, bindings, peer, h)
  {
    if h.Complete? && h.fingerprint in bindings.Values {
      var address :| address in bindings && bindings[address] == h.fingerprint;
    }
  }

  /** There is room, or another established session at the address to be replaced. */
  ghost predicate NotFull(cfg: Config, st: State, s: Session, h: HandshakeResult)
    requires h.Complete?
  {
    || Count(Established, st.sessions) < cfg.maxClients
    || exists t :: t in st.sessions && t.established && t.address == h.first && t.peer != s.peer
  }

  /** A handshake lets a session in exactly when the certificate passes every check and the server
      is not full; the session then has the address of the binding, the time, and, at the end of
      its queue, the answer that says whether a login is required. */
  lemma {:induction false} EstablishedIff(cfg: Config, st: State, i: nat, h: HandshakeResult, after: seq<Session>,
                                          st': State)
    requires Shape(st) && i < |st.sessions| && !st.sessions[i].established && Distinct(st.sessions)
    requires HandshakeStep(cfg, st, i, h, after, st')
    ensures (exists t :: t in st'.sessions && t.serial == st.sessions[i].serial && t.established)
       <==> Acceptable(cfg, Current(st).bindings, st.sessions[i].peer, h) && NotFull(cfg, st, st.sessions[i], h)
    ensures forall t :: t in st'.sessions && t.serial == st.sessions[i].serial && t.established ==>
              var s, required := st.sessions[i], h.first in Current(st).logins;
              && t == s.(address := h.first, fingerprint := Some(h.fingerprint), established := true,
                         authenticated := !required, establishedAt := Some(st.now), dtlsDeadline := None,
                         rawTx := t.rawTx, boundUnder := st.taken, retainedAfter := |st.updates| - 1)
              && Appended(s.rawTx, t.rawTx, if required then AUTH_REQUIRED else AUTH_OK)
    ensures st'.log == if Acceptable(cfg, Current(st).bindings, st.sessions[i].peer, h)
                       then st.log + [Connected(st.sessions[i].serial, h.first, h.fingerprint, st.taken,
                                                h.first in Current(st).logins,
                                                Evidence(st.sessions[i].peer, h.san, h.source))]
                       else st.log
  {
    hide Count, Filter, CertificateAccepted, Distinct, SwapRemove;
    AcceptableIff(cfg, Current(st).bindings, st.sessions[i].peer, h);
    if CertificateAccepted(cfg, Current(st).bindings, st.sessions[i].peer, h) {
      AcceptedOutcome(cfg, st, i, h, after, st');
    } else if h.Incomplete? {
      var s := st.sessions[i].(dtlsDeadline := Some(st.now + h.timeout));
      OneSerial(st.sessions, i, s);
    } else {
      WithoutSerial(st.sessions, i);
    }
  }

  lemma {:induction false} OneSerial(list: seq<Session>, i: nat, s: Session)
    requires Distinct(list) && i < |list| && s.serial == list[i].serial
    ensures s in list[i := s]
    ensures forall t :: t in list[i := s] && t.serial == s.serial ==> t == s
  {
    assert list[i := s][i] == s;
  }

  lemma {:induction false} WithoutSerial(list: seq<Session>, i: nat)
    requires Distinct(list) && i < |list|
    ensures forall t :: t in SwapRemove(list, i) ==> t in list && t.serial != list[i].serial
    ensures forall t :: t in list && t.serial != list[i].serial ==> t in SwapRemove(list, i)
  {
    SwapRemoveIsRemoval(list, i);
    var rest := SwapRemove(list, i);
    var n := |list| - 1;
    forall t | t in rest ensures t in list && t.serial != list[i].serial {
      var k :| 0 <= k < |rest| && rest[k] == t;
      assert t == if k == i then list[n] else list[k];
    }
    forall t | t in list && t.serial != list[i].serial ensures t in rest {
      var k :| 0 <= k < |list| && list[k] == t;
      assert rest[if k == n then i else k] == t;
    }
  }

  lemma {:induction false} AcceptedOutcome(cfg: Config, st: State, i: nat, h: HandshakeResult, after: seq<Session>,
                                           st': State)
    requires Shape(st) && i < |st.sessions| && !st.sessions[i].established && Distinct(st.sessions)
    requires HandshakeStep(cfg, st, i, h, after, st')
    requires CertificateAccepted(cfg, Current(st).bindings, st.sessions[i].peer, h)
    ensures h.Complete?
    ensures var s := EstablishedSession(st, st.sessions[i], h.fingerprint, h.first);
            && (s in st'.sessions <==> NotFull(cfg, st, st.sessions[i], h))
            && (forall t :: t in st'.sessions && t.serial == s.serial ==> t == s)
            && st'.log == Establish(st, i, h).log
            && Appended(st.sessions[i].rawTx, s.rawTx, if h.first in Current(st).logins then AUTH_REQUIRED else AUTH_OK)
  {
    assert h.Complete?;
    hide Count, Filter, CertificateAccepted, Distinct, SwapRemove, Appended, QueuePlain, EstablishedSession, Matches,
      NotFull;
    var pending := st.sessions[i];
    var s := EstablishedSession(st, pending, h.fingerprint, h.first);
    var mid := Establish(st, i, h);
    ReplyTo(st, pending, h.fingerprint, h.first);
    QueueAppends(pending, AUTH_REQUIRED);
    QueueAppends(pending, AUTH_OK);
    OneSerial(st.sessions, i, s);
    EstablishDistinct(st.sessions, i, s);
    FullIff(cfg, st, i, h, s);
    if NotFull(cfg, st, pending, h) {
      if s.authenticated { Replaced(mid.sessions, s, after); }
    } else {
      WithoutSerial(mid.sessions, i);
    }
  }

  /** The replacement keeps the session that replaces. */
  lemma {:induction false} Replaced(list: seq<Session>, s: Session, after: seq<Session>)
    requires multiset(after) == multiset(Filter(NotDuplicateOf(s.address, s.peer), list))
    requires s in list
    ensures s in after && forall t :: t in after ==> t in list
  {
    hide Filter;
    var kept := Filter(NotDuplicateOf(s.address, s.peer), list);
    FilterIsRemoval(NotDuplicateOf(s.address, s.peer), list);
    assert s in kept && s in multiset(after);
    forall t | t in after ensures t in list {
      assert t in multiset(kept);
    }
  }

  lemma {:induction false} ReplyTo(st: State, s: Session, fingerprint: Fingerprint, address: Ipv4)
    requires Shape(st)
    ensures EstablishedSession(st, s, fingerprint, address).rawTx
         == QueuePlain(s, if address in Current(st).logins then AUTH_REQUIRED else AUTH_OK).rawTx
    ensures var t := EstablishedSession(st, s, fingerprint, address);
            t == s.(address := address, fingerprint := Some(fingerprint), established := true,
                    authenticated := address !in Current(st).logins, establishedAt := Some(st.now),
                    dtlsDeadline := None, rawTx := t.rawTx, boundUnder := st.taken, retainedAfter := |st.updates| - 1)
  {
  }

  lemma {:induction false} FullIff(cfg: Config, st: State, i: nat, h: HandshakeResult, s: Session)
    requires i < |st.sessions| && h.Complete? && s.peer == st.sessions[i].peer && !st.sessions[i].established
    ensures NotFull(cfg, st, st.sessions[i], h)
       <==> Count(Established, st.sessions) < cfg.maxClients
            || Count(DuplicateOf(h.first, s.peer), st.sessions[i := s]) > 0
  {
    hide Count;
    CountUpdate(DuplicateOf(h.first, s.peer), st.sessions, i, s);
    CountZeroIff(DuplicateOf(h.first, s.peer), st.sessions);
    if exists t :: t in st.sessions && t.established && t.address == h.first && t.peer != s.peer {
      var t :| t in st.sessions && t.established && t.address == h.first && t.peer != s.peer;
      assert Matches(DuplicateOf(h.first, s.peer), t);
    }
  }

  /** What a handshake step does to a session that it does not let in: an unfinished handshake
      gets a retransmission deadline, everything else ends the session; no other session changes
      unless the session is let in. */
  lemma {:induction false} NotEstablished(cfg: Config, st: State, i: nat, h: HandshakeResult, after: seq<Session>,
                                          st': State)
    requires Shape(st) && i < |st.sessions| && !st.sessions[i].established && Distinct(st.sessions)
    requires HandshakeStep(cfg, st, i, h, after, st')
    requires !(Acceptable(cfg, Current(st).bindings, st.sessions[i].peer, h) && NotFull(cfg, st, st.sessions[i], h))
    ensures if h.Incomplete?
            then st'.sessions == st.sessions[i := st.sessions[i].(dtlsDeadline := Some(st.now + h.timeout))]
            else forall t :: t in st'.sessions <==> t in st.sessions && t.serial != st.sessions[i].serial
  {
    hide Count, Filter, CertificateAccepted, Distinct, SwapRemove;
    AcceptableIff(cfg, Current(st).bindings, st.sessions[i].peer, h);
    if CertificateAccepted(cfg, Current(st).bindings, st.sessions[i].peer, h) {
      var s := EstablishedSession(st, st.sessions[i], h.fingerprint, h.first);
      FullIff(cfg, st, i, h, s);
      SameRest(st.sessions, i, s);
    }
    WithoutSerial(st.sessions, i);
  }

  lemma {:induction false} SameRest(list: seq<Session>, i: nat, s: Session)
    requires i < |list|
    ensures SwapRemove(list[i := s], i) == SwapRemove(list, i)
  {
  }
}
