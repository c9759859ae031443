/** Which steps can raise the number of established sessions, over every thread's steps. */
module EstablishedCount {
  import opened Net
  import opened InboundOrder
  import opened SessionTable
  import opened ServerMachine
  import opened ServerInvariant
  import opened ServerTheorems

  /** Questions that only an established session answers. */
  predicate OfEstablished(q: Query) { q.Established? || q.DuplicateOf? }

  /** A turn leaves what the certificate settled. */
  lemma {:induction false} TurnKeepsCount(cfg: Config, st: State, i: nat, o: DrainOracle)
    requires Shape(st) && i < |st.sessions|
    ensures Count(Established, DrainAt(cfg, st, i, o).sessions) == Count(Established, st.sessions)
  {
    if NeedsTurn(st.sessions[i]) {
      TurnKeepsEstablished(cfg, st, st.sessions[i], o);
      CountUpdate(Established, st.sessions, i, TurnOf(cfg, st, st.sessions[i], o).session);
    }
  }

  lemma {:induction false} TurnKeepsEstablished(cfg: Config, st: State, s: Session, o: DrainOracle)
    requires Shape(st)
    ensures TurnOf(cfg, st, s, o).session.established == s.established
  {
    hide PacketAddresses, DestinationPermitted, Retry;
  }

  lemma {:induction false} DrainKeepsCount(cfg: Config, st: State, i: nat, oracles: seq<DrainOracle>)
    requires Shape(st) && i <= |st.sessions| == |oracles|
    ensures Count(Established, DrainFrom(cfg, st, i, oracles).sessions) == Count(Established, st.sessions)
    decreases |oracles| - i
  {
    if i < |oracles| && !st.stopped {
      TurnKeepsCount(cfg, st, i, oracles[i]);
      DrainKeepsCount(cfg, DrainAt(cfg, st, i, oracles[i]), i + 1, oracles);
    }
  }

  lemma {:induction false} SweepCount(list: seq<Session>, ip: Ipv4, q: Query)
    ensures Count(q, Filter(NotPendingFrom(ip), list)) <= Count(q, list)
  {
    FilterIsRemoval(NotPendingFrom(ip), list);
    CountMonotone(q, Filter(NotPendingFrom(ip), list), list);
  }

  /** Looking up or admitting the sender of a datagram raises no such count; when it finds or
      makes a session, it lowers none. */
  lemma {:induction false} LocateCount(cfg: Config, st: State, peer: Peer, a: Admission, q: Query)
    requires OfEstablished(q)
    ensures var located := Locate(cfg, st, peer, a);
            && Count(q, located.state.sessions) <= Count(q, st.sessions)
            && (located.index.Some? ==>
                  && Count(q, located.state.sessions) == Count(q, st.sessions)
                  && located.state.sessions[located.index.value].peer == peer)
  {
    hide Count, Filter, AdmitIfRoom, PositionOf, Matches;
    if PositionOf(peer, st.sessions).None? && PeerIp(peer).Some? {
      SweepCount(st.sessions, PeerIp(peer).value, q);
      AdmissionCount(cfg, st, peer, PeerIp(peer).value, a.acceptorOk, q);
    }
  }

  lemma {:induction false} AdmissionCount(cfg: Config, st: State, peer: Peer, ip: Ipv4, acceptorOk: bool, q: Query)
    requires OfEstablished(q)
    ensures var located := AdmitIfRoom(cfg, st, peer, ip, acceptorOk);
            && Count(q, located.state.sessions) == Count(q, st.sessions)
            && (located.index.Some? ==> located.state.sessions[located.index.value].peer == peer)
  {
    hide Count;
    var room := st.sessions;
    var oldest := OldestPending(st.sessions);
    if Count(Pending, st.sessions) >= cfg.maxPending && oldest.Some? {
      CountSwapRemove(q, st.sessions, oldest.value);
      room := SwapRemove(st.sessions, oldest.value);
    }
    CountPush(q, room, NewSession(WithSessions(st, room), peer));
  }

  lemma {:induction false} ArrivedCount(located: Located, bytes: Bytes, inject: InjectResult, q: Query)
    requires located.index.Some? ==> located.index.value < |located.state.sessions|
    requires OfEstablished(q)
    ensures var arrived := Arrived(located, bytes, inject);
            && Count(q, arrived.sessions) == Count(q, located.state.sessions)
            && |arrived.sessions| == |located.state.sessions|
            && (located.index.Some? ==>
                  arrived.sessions[located.index.value].peer == located.state.sessions[located.index.value].peer)
  {
    CountSame(q, Arrived(located, bytes, inject).sessions, located.state.sessions);
  }

  /** The part of a datagram's step that comes before the handshake. */
  lemma {:induction false} BeforeHandshake(cfg: Config, st: State, d: Datagram, a: Admission, inject: InjectResult,
                                           q: Query)
    requires Shape(st) && OfEstablished(q)
    ensures var located := Locate(cfg, st, d.peer, a);
            var arrived := Arrived(located, d.bytes, inject);
            && Count(q, arrived.sessions) <= Count(q, st.sessions)
            && arrived.updates == st.updates && arrived.taken == st.taken
            && (located.index.Some? ==>
                  && located.index.value < |arrived.sessions| && arrived.sessions[located.index.value].peer == d.peer
                  && Count(q, arrived.sessions) == Count(q, st.sessions))
  {
    hide Count;
    LocateCount(cfg, st, d.peer, a, q);
    ArrivedCount(Locate(cfg, st, d.peer, a), d.bytes, inject, q);
    LocateFrame(cfg, st, d.peer, a);
  }

  lemma {:induction false} RefusedCount(cfg: Config, st: State, i: nat, h: HandshakeResult, after: seq<Session>,
                                        st': State)
    requires Shape(st) && i < |st.sessions| && HandshakeStep(cfg, st, i, h, after, st')
    requires st.sessions[i].established || !CertificateAccepted(cfg, Current(st).bindings, st.sessions[i].peer, h)
    ensures Count(Established, st'.sessions) == Count(Established, st.sessions)
  {
    hide Count;
    CountSwapRemove(Established, st.sessions, i);
    if h.Incomplete? {
      CountUpdate(Established, st.sessions, i, st.sessions[i].(dtlsDeadline := Some(st.now + h.timeout)));
    }
  }

  /** What a datagram does to the count of established sessions, and when that breaks the
      limit. */
  lemma {:induction false} ReceiveCount(cfg: Config, st: State, d: Datagram, a: Admission, inject: InjectResult,
                                        h: HandshakeResult, after: seq<Session>, st': State)
    requires Shape(st) && ReceiveStep(cfg, st, d, a, inject, h, after, st')
    ensures Count(Established, st'.sessions) <= Count(Established, st.sessions) + 1
    ensures Count(Established, st'.sessions) > Count(Established, st.sessions) ==>
              CertificateAccepted(cfg, Current(st).bindings, d.peer, h)
    ensures Count(Established, st.sessions) <= cfg.maxClients < Count(Established, st'.sessions) ==>
              && Count(Established, st.sessions) == cfg.maxClients
              && Count(DuplicateOf(h.first, d.peer), st.sessions) > 0 && h.first in Current(st).logins
  {
    hide Count, HandshakeStep, Locate, Arrived, CertificateAccepted;
    var located := Locate(cfg, st, d.peer, a);
    var arrived := Arrived(located, d.bytes, inject);
    BeforeHandshake(cfg, st, d, a, inject, Established);
    BeforeHandshake(cfg, st, d, a, inject, if h.Complete? then DuplicateOf(h.first, d.peer) else Established);
    ArrivedShape(cfg, st, d, a, inject);
    if located.index.Some? && !InjectRefused(located, inject) {
      var i := located.index.value;
      if arrived.sessions[i].established || !CertificateAccepted(cfg, Current(arrived).bindings, d.peer, h) {
        RefusedCount(cfg, arrived, i, h, after, st');
      } else {
        AcceptedCount(cfg, arrived, i, h, after, st');
      }
    }
  }

  lemma {:induction false} ArrivedShape(cfg: Config, st: State, d: Datagram, a: Admission, inject: InjectResult)
    requires Shape(st)
    ensures Shape(Arrived(Locate(cfg, st, d.peer, a), d.bytes, inject))
    ensures Current(Arrived(Locate(cfg, st, d.peer, a), d.bytes, inject)) == Current(st)
  {
    hide Locate;
    LocateFrame(cfg, st, d.peer, a);
  }

  lemma {:induction false} AcceptedCount(cfg: Config, st: State, i: nat, h: HandshakeResult, after: seq<Session>,
                                         st': State)
    requires Shape(st) && i < |st.sessions| && !st.sessions[i].established && HandshakeStep(cfg, st, i, h, after, st')
    requires CertificateAccepted(cfg, Current(st).bindings, st.sessions[i].peer, h)
    ensures h.Complete?
    ensures Count(Established, st'.sessions) <= Count(Established, st.sessions) + 1
    ensures Count(Established, st.sessions) <= cfg.maxClients < Count(Established, st'.sessions) ==>
              && Count(Established, st.sessions) == cfg.maxClients
              && Count(DuplicateOf(h.first, st.sessions[i].peer), st.sessions) > 0 && h.first in Current(st).logins
  {
    hide Count;
    SettledCount(cfg, st, i, h, after, st');
  }

  lemma {:induction false} TickCount(cfg: Config, st: State, disconnects: seq<Ipv4>, o: map<nat, RetransmitResult>,
                                     mid: seq<Session>, st': State)
    requires TickStep(cfg, st, disconnects, o, mid, st')
    ensures Count(Established, st'.sessions) <= Count(Established, st.sessions)
  {
    hide Count;
    var left := DisconnectAll(st.sessions, disconnects);
    var kept := Retransmitted(left, o, st.now);
    DisconnectIsRemoval(st.sessions, disconnects);
    RetransmittedIsRemoval(left, o, st.now);
    CountMonotone(Established, kept, st.sessions);
    RetransmitShape(left, o, st.now);
    CountSame(Established, kept, RetransmitAll(left, o, st.now));
    FilterIsRemoval(Unexpired(st.now, cfg.maxLifetime), mid);
    CountMonotone(Established, st'.sessions, RetransmitAll(left, o, st.now));
  }

  lemma {:induction false} RemovalsCount(cfg: Config, st: State, step: Step, st': State)
    requires Next(cfg, st, step, st') && (step.Dedupe? || step.UdpRemove? || step.Retain?)
    ensures Count(Established, st'.sessions) <= Count(Established, st.sessions)
  {
    hide Count, KeepLast, Filter, Matches;
    match step {
      case Dedupe => KeepLastIsRemoval(st.sessions);
      case UdpRemove(failed, after) => FilterIsRemoval(SerialOutside(failed), st.sessions);
      case Retain(update) => FilterIsRemoval(Authorised(update, st.updates[|st.updates| - 1].logins), st.sessions);
    }
    CountMonotone(Established, st'.sessions, st.sessions);
  }

  /** Removals and steps that touch queues only. */
  lemma {:induction false} OthersCount(cfg: Config, st: State, step: Step, st': State)
    requires Next(cfg, st, step, st') && !step.Receive?
    ensures Count(Established, st'.sessions) <= Count(Established, st.sessions)
  {
    hide Count, DrainFrom, KeepLast, Route, NextWake, TickStep, Filter, Matches;
    match step {
      case Drain(oracles) => DrainKeepsCount(cfg, st, 0, oracles);
      case RoutePacket(packet, flush) =>
        RouteShape(cfg, st, packet, flush);
        PointwiseCount(st.sessions, st'.sessions);
      case FlushSessions(flush) => PointwiseCount(st.sessions, st'.sessions);
      case ControlTick(disconnects, retransmit, mid) => TickCount(cfg, st, disconnects, retransmit, mid, st');
      case Dedupe => RemovalsCount(cfg, st, step, st');
      case UdpRemove(_, _) => RemovalsCount(cfg, st, step, st');
      case Retain(_) => RemovalsCount(cfg, st, step, st');
      case _ =>
    }
  }

  lemma {:induction false} PointwiseCount(a: seq<Session>, b: seq<Session>)
    requires |a| == |b| && forall i :: 0 <= i < |a| ==> a[i].established == b[i].established
    ensures Count(Established, a) == Count(Established, b)
  {
    CountSame(Established, a, b);
  }

  /** Of all steps only an accepted handshake raises the number of established sessions, by one
      at a time; and of these only one of a client that has to log in, at an address where
      another session is still established, takes a full server over its limit. */
  lemma {:induction false} OnlyHandshakesEstablish(cfg: Config, st: State, step: Step, st': State)
    requires Next(cfg, st, step, st')
    ensures Count(Established, st'.sessions) > Count(Established, st.sessions) ==>
              && step.Receive? && step.handshake.Complete? && step.datagram.peer.Inet?
              && step.handshake.fingerprint in Current(st).bindings.Values
              && (cfg.verifySan ==> step.handshake.san == Passes) && step.handshake.source == Passes
              && Count(Established, st'.sessions) == Count(Established, st.sessions) + 1
    ensures Count(Established, st.sessions) <= cfg.maxClients < Count(Established, st'.sessions) ==>
              && step.Receive? && step.handshake.Complete? && Count(Established, st.sessions) == cfg.maxClients
              && Count(DuplicateOf(step.handshake.first, step.datagram.peer), st.sessions) > 0
              && step.handshake.first in Current(st).logins
  {
    hide Count, ReceiveStep;
    if step.Receive? {
      ReceiveCount(cfg, st, step.datagram, step.admission, step.inject, step.handshake, step.after, st');
    } else {
      OthersCount(cfg, st, step, st');
    }
  }
}
