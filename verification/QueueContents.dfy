/** Whose packets wait for a client: over all runs, a session's plaintext queue holds the server's
    own replies and packets that were routed to that session, and nothing else. */
module QueueContents {
  import opened Net
  import opened InboundOrder
  import opened Login
  import opened SessionTable
  import opened ServerMachine
  import opened ServerInvariant

  predicate IsReply(frame: Bytes) {
    frame == AUTH_OK || frame == AUTH_FAILED || frame == AUTH_REQUIRED || frame == [0]
  }

  /** Every packet in the queue of the session is a reply or was routed to it. */
  ghost predicate Sourced(log: seq<Event>, serial: nat, queue: seq<Bytes>) {
    forall k :: 0 <= k < |queue| ==> IsReply(queue[k]) || Routed(serial, queue[k]) in log
  }

  ghost predicate AllSourced(st: State) {
    forall i :: 0 <= i < |st.sessions| ==> Sourced(st.log, st.sessions[i].serial, st.sessions[i].rawTx)
  }

  // ----- Queues -----

  lemma {:induction false} SourcedGrows(log: seq<Event>, events: seq<Event>, serial: nat, queue: seq<Bytes>)
    requires Sourced(log, serial, queue)
    ensures Sourced(log + events, serial, queue)
  {
    forall k | 0 <= k < |queue| && Routed(serial, queue[k]) in log ensures Routed(serial, queue[k]) in log + events {}
  }

  lemma {:induction false} SourcedQueue(log: seq<Event>, s: Session, packet: Bytes)
    requires Sourced(log, s.serial, s.rawTx) && (IsReply(packet) || Routed(s.serial, packet) in log)
    ensures Sourced(log, s.serial, QueuePlain(s, packet).rawTx)
  {
    hide IsReply;
  }

  lemma {:induction false} SourcedFlush(log: seq<Event>, s: Session, flush: FlushOracle, now: Instant)
    requires Sourced(log, s.serial, s.rawTx)
    ensures Sourced(log, s.serial, FlushOne(s, flush, now).rawTx)
  {
    hide IsReply;
  }

  // ----- Steps -----

  lemma {:induction false} TurnSourced(cfg: Config, st: State, s: Session, o: DrainOracle)
    requires Shape(st) && Sourced(st.log, s.serial, s.rawTx)
    ensures var t := TurnOf(cfg, st, s, o);
            t.session.serial == s.serial && Sourced(st.log + t.events, s.serial, t.session.rawTx)
  {
    hide PacketAddresses, LoginMatches, DestinationPermitted, Retry, AfterRead, Sourced, QueuePlain;
    var t := TurnOf(cfg, st, s, o);
    SourcedGrows(st.log, t.events, s.serial, s.rawTx);
    QueueKeepsSerial(s);
    SourcedReplies(st.log + t.events, s);
  }

  lemma {:induction false} QueueKeepsSerial(s: Session)
    ensures forall r: Session, p: Bytes :: r.rawTx == s.rawTx ==>
              QueuePlain(r, p).serial == r.serial && QueuePlain(r, p).rawTx == QueuePlain(s, p).rawTx
  {
  }

  lemma {:induction false} SourcedReplies(log: seq<Event>, s: Session)
    requires Sourced(log, s.serial, s.rawTx)
    ensures Sourced(log, s.serial, QueuePlain(s, AUTH_OK).rawTx)
    ensures Sourced(log, s.serial, QueuePlain(s, AUTH_FAILED).rawTx)
    ensures Sourced(log, s.serial, QueuePlain(s, AUTH_REQUIRED).rawTx)
    ensures Sourced(log, s.serial, QueuePlain(s, KEEPALIVE_PACKET).rawTx)
  {
    hide Sourced, QueuePlain;
    SourcedQueue(log, s, AUTH_OK);
    SourcedQueue(log, s, AUTH_FAILED);
    SourcedQueue(log, s, AUTH_REQUIRED);
    SourcedQueue(log, s, KEEPALIVE_PACKET);
  }

  lemma {:induction false} DrainAtSourced(cfg: Config, st: State, i: nat, o: DrainOracle)
    requires Shape(st) && i < |st.sessions| && AllSourced(st)
    ensures AllSourced(DrainAt(cfg, st, i, o))
  {
    hide Sourced, DrainTurn;
    if NeedsTurn(st.sessions[i]) {
      var t := TurnOf(cfg, st, st.sessions[i], o);
      TurnSourced(cfg, st, st.sessions[i], o);
      forall j | 0 <= j < |st.sessions|
        ensures Sourced(st.log + t.events, st.sessions[j].serial, st.sessions[j].rawTx)
      {
        SourcedGrows(st.log, t.events, st.sessions[j].serial, st.sessions[j].rawTx);
      }
    }
  }

  lemma {:induction false} DrainSourced(cfg: Config, st: State, i: nat, oracles: seq<DrainOracle>)
    requires Shape(st) && i <= |st.sessions| == |oracles| && AllSourced(st)
    ensures AllSourced(DrainFrom(cfg, st, i, oracles))
    decreases |oracles| - i
  {
    hide AllSourced;
    if i < |oracles| && !st.stopped {
      DrainAtSourced(cfg, st, i, oracles[i]);
      DrainSourced(cfg, DrainAt(cfg, st, i, oracles[i]), i + 1, oracles);
    }
  }

  /** Sessions disappear. */
  lemma {:induction false} RemovalSourced(st: State, st': State)
    requires AllSourced(st) && st'.log == st.log && multiset(st'.sessions) <= multiset(st.sessions)
    ensures AllSourced(st')
  {
    hide Sourced;
    forall i | 0 <= i < |st'.sessions| ensures Sourced(st'.log, st'.sessions[i].serial, st'.sessions[i].rawTx) {
      assert st'.sessions[i] in multiset(st.sessions);
      var j :| 0 <= j < |st.sessions| && st.sessions[j] == st'.sessions[i];
    }
  }

  lemma {:induction false} LocateSourced(cfg: Config, st: State, peer: Peer, a: Admission)
    requires AllSourced(st)
    ensures AllSourced(Locate(cfg, st, peer, a).state) && Locate(cfg, st, peer, a).state.log == st.log
  {
    hide Sourced, Count, Filter, SwapRemove, OldestPending, PositionOf;
    if PeerIp(peer).Some? {
      FilterIsRemoval(NotPendingFrom(PeerIp(peer).value), st.sessions);
      RemovalSourced(st, WithSessions(st, Filter(NotPendingFrom(PeerIp(peer).value), st.sessions)));
      RoomSourced(cfg, st, peer, PeerIp(peer).value, a.acceptorOk);
    }
  }

  lemma {:induction false} RoomSourced(cfg: Config, st: State, peer: Peer, ip: Ipv4, acceptorOk: bool)
    requires AllSourced(st)
    ensures AllSourced(AdmitIfRoom(cfg, st, peer, ip, acceptorOk).state)
  {
    hide Sourced, Count, SwapRemove, OldestPending;
    var oldest := OldestPending(st.sessions);
    if Count(Pending, st.sessions) >= cfg.maxPending && oldest.Some? {
      SwapRemoveIsRemoval(st.sessions, oldest.value);
      RemovalSourced(st, WithSessions(st, SwapRemove(st.sessions, oldest.value)));
    }
    EmptySourced(st.log, st.nextSerial);
  }

  lemma {:induction false} EmptySourced(log: seq<Event>, serial: nat)
    ensures Sourced(log, serial, [])
  {
  }

  lemma {:induction false} EstablishSourced(st: State, i: nat, h: HandshakeResult)
    requires Shape(st) && i < |st.sessions| && h.Complete? && AllSourced(st)
    ensures AllSourced(Establish(st, i, h)) && |Establish(st, i, h).sessions| == |st.sessions|
  {
    hide Sourced, QueuePlain;
    var st' := Establish(st, i, h);
    var e := st'.log[|st.log|];
    assert st'.log == st.log + [e];
    QueueKeepsSerial(st.sessions[i]);
    forall j | 0 <= j < |st.sessions| ensures Sourced(st'.log, st.sessions[j].serial, st.sessions[j].rawTx) {
      SourcedGrows(st.log, [e], st.sessions[j].serial, st.sessions[j].rawTx);
    }
    SourcedReplies(st'.log, st.sessions[i]);
  }

  lemma {:induction false} AcceptedIsComplete(cfg: Config, bindings: map<Ipv4, Fingerprint>, peer: Peer,
                                              h: HandshakeResult)
    requires CertificateAccepted(cfg, bindings, peer, h)
    ensures h.Complete?
  {
  }

  lemma {:induction false} HandshakeSourced(cfg: Config, st: State, i: nat, h: HandshakeResult, after: seq<Session>,
                                            st': State)
    requires Shape(st) && i < |st.sessions| && AllSourced(st) && HandshakeStep(cfg, st, i, h, after, st')
    ensures AllSourced(st')
  {
    hide Count, Filter, SwapRemove, Matches, Establish, CertificateAccepted;
    SwapRemoveIsRemoval(st.sessions, i);
    if !st.sessions[i].established && !h.Incomplete? {
      if CertificateAccepted(cfg, Current(st).bindings, st.sessions[i].peer, h) {
        assert h.Complete? by { AcceptedIsComplete(cfg, Current(st).bindings, st.sessions[i].peer, h); }
        hide AllSourced;
        var mid := Establish(st, i, h);
        EstablishSourced(st, i, h);
        var s := mid.sessions[i];
        SwapRemoveIsRemoval(mid.sessions, i);
        FilterIsRemoval(NotDuplicateOf(s.address, s.peer), mid.sessions);
        RemovalSourced(mid, st');
      } else {
        RemovalSourced(st, st');
      }
    } else {
      hide Sourced;
    }
  }

  lemma {:induction false} ReceiveSourced(cfg: Config, st: State, d: Datagram, a: Admission, inject: InjectResult,
                                          h: HandshakeResult, after: seq<Session>, st': State)
    requires Shape(st) && AllSourced(st) && ReceiveStep(cfg, st, d, a, inject, h, after, st')
    ensures AllSourced(st')
  {
    hide Sourced, Locate, HandshakeStep, Arrive;
    var located := Locate(cfg, st, d.peer, a);
    LocateSourced(cfg, st, d.peer, a);
    var arrived := Arrived(located, d.bytes, inject);
    assert AllSourced(arrived);
    if located.index.Some? && !InjectRefused(located, inject) {
      HandshakeSourced(cfg, arrived, located.index.value, h, after, st');
    }
  }

  lemma {:induction false} RouteToAllSourced(st: State, packet: Bytes, flush: FlushOracle)
    requires AllSourced(st)
    ensures AllSourced(RouteToAll(st, packet, flush))
  {
    hide Sourced, QueuePlain, FlushOne, RoutedTo;
    var events := RoutedTo(st.sessions, packet);
    forall i | 0 <= i < |st.sessions|
      ensures var t := RouteToAll(st, packet, flush).sessions[i]; Sourced(st.log + events, t.serial, t.rawTx)
    {
      var s := st.sessions[i];
      SourcedGrows(st.log, events, s.serial, s.rawTx);
      QueueKeepsSerial(s);
      FlushKeepsSerial(s, flush, st.now);
      FlushKeepsSerial(QueuePlain(s, packet), flush, st.now);
      if s.authenticated {
        RoutedToHas(st.sessions, packet, i);
        assert Routed(s.serial, packet) in st.log + events;
        SourcedQueue(st.log + events, s, packet);
        SourcedFlush(st.log + events, QueuePlain(s, packet), flush, st.now);
      } else {
        SourcedFlush(st.log + events, s, flush, st.now);
      }
    }
  }

  lemma {:induction false} RoutedToHas(list: seq<Session>, packet: Bytes, i: nat)
    requires i < |list| && list[i].authenticated
    ensures Routed(list[i].serial, packet) in RoutedTo(list, packet)
  {
    var n := |list| - 1;
    if i < n { RoutedToHas(list[..n], packet, i); }
  }

  lemma {:induction false} FlushKeepsSerial(s: Session, flush: FlushOracle, now: Instant)
    ensures FlushOne(s, flush, now).serial == s.serial
  {
  }

  lemma {:induction false} RouteToOneSourced(st: State, destination: Ipv4, packet: Bytes, flush: FlushOracle)
    requires AllSourced(st)
    ensures AllSourced(RouteToOne(st, destination, packet, flush))
  {
    hide Sourced, QueuePlain, FlushOne;
    var at := PickReceiver(st.sessions, destination);
    if at.Some? {
      var s := st.sessions[at.value];
      var e := Routed(s.serial, packet);
      QueueKeepsSerial(s);
      FlushKeepsSerial(QueuePlain(s, packet), flush, st.now);
      forall j | 0 <= j < |st.sessions| ensures Sourced(st.log + [e], st.sessions[j].serial, st.sessions[j].rawTx) {
        SourcedGrows(st.log, [e], st.sessions[j].serial, st.sessions[j].rawTx);
      }
      assert (st.log + [e])[|st.log|] == e;
      SourcedQueue(st.log + [e], s, packet);
      SourcedFlush(st.log + [e], QueuePlain(s, packet), flush, st.now);
    }
  }

  lemma {:induction false} RouteSourced(cfg: Config, st: State, packet: Bytes, flush: FlushOracle)
    requires AllSourced(st)
    ensures AllSourced(Route(cfg, st, packet, flush))
  {
    hide AllSourced, PacketAddresses, RouteToAll, RouteToOne;
    if PacketAddresses(packet).Some? {
      RouteToAllSourced(st, packet, flush);
      RouteToOneSourced(st, PacketAddresses(packet).value.1, packet, flush);
    }
  }

  lemma {:induction false} FlushSourced(st: State, flush: FlushOracle)
    requires AllSourced(st)
    ensures AllSourced(st.(sessions := FlushAll(st.sessions, flush, st.now)))
  {
    hide Sourced, FlushOne;
    forall i | 0 <= i < |st.sessions|
      ensures var t := FlushAll(st.sessions, flush, st.now)[i]; Sourced(st.log, t.serial, t.rawTx)
    {
      FlushKeepsSerial(st.sessions[i], flush, st.now);
      SourcedFlush(st.log, st.sessions[i], flush, st.now);
    }
  }

  lemma {:induction false} TickSourced(cfg: Config, st: State, disconnects: seq<Ipv4>, o: map<nat, RetransmitResult>,
                                       mid: seq<Session>, st': State)
    requires AllSourced(st) && TickStep(cfg, st, disconnects, o, mid, st')
    ensures AllSourced(st')
  {
    hide Sourced, Filter, Matches;
    var left := DisconnectAll(st.sessions, disconnects);
    var kept := Retransmitted(left, o, st.now);
    var moved := RetransmitAll(left, o, st.now);
    DisconnectIsRemoval(st.sessions, disconnects);
    RetransmittedIsRemoval(left, o, st.now);
    RemovalSourced(st, st.(sessions := kept));
    RetransmitShape(left, o, st.now);
    forall i | 0 <= i < |moved| ensures Sourced(st.log, moved[i].serial, moved[i].rawTx) {
      assert RetransmitOne(kept[i], o, st.now) == Some(moved[i]);
    }
    FilterIsRemoval(Unexpired(st.now, cfg.maxLifetime), mid);
    RemovalSourced(st.(sessions := moved), st');
  }

  lemma {:induction false} NextKeepsSourced(cfg: Config, st: State, step: Step, st': State)
    requires Next(cfg, st, step, st') && AllSourced(st)
    ensures AllSourced(st')
  {
    hide Sourced, DrainFrom, KeepLast, ReceiveStep, Route, FlushAll, TickStep, Filter, NextWake, Matches;
    match step {
      case Drain(oracles) => DrainSourced(cfg, st, 0, oracles);
      case Dedupe =>
        KeepLastIsRemoval(st.sessions);
        RemovalSourced(st, st');
      case Receive(d, a, inject, h, after) => ReceiveSourced(cfg, st, d, a, inject, h, after, st');
      case RoutePacket(packet, flush) => RouteSourced(cfg, st, packet, flush);
      case FlushSessions(flush) => FlushSourced(st, flush);
      case UdpRemove(failed, after) =>
        FilterIsRemoval(SerialOutside(failed), st.sessions);
        RemovalSourced(st, st');
      case ControlTick(disconnects, o, mid) => TickSourced(cfg, st, disconnects, o, mid, st');
      case Retain(update) =>
        FilterIsRemoval(Authorised(update, st.updates[|st.updates| - 1].logins), st.sessions);
        RemovalSourced(st, st');
      case _ =>
    }
  }

  lemma {:induction false} RunsAreSourced(cfg: Config, update: Update, states: seq<State>, steps: seq<Step>, k: nat)
    requires IsRun(cfg, update, states, steps) && k < |states|
    ensures AllSourced(states[k])
  {
    if k > 0 {
      RunsAreSourced(cfg, update, states, steps, k - 1);
      hide AllSourced;
      NextKeepsSourced(cfg, states[k - 1], steps[k - 1], states[k]);
    }
  }

  /** In every state of every run, a client can only be sent the server's replies and the packets
      that were routed to its own session. */
  lemma {:induction false} OnlyOwnPackets(cfg: Config, update: Update, states: seq<State>, steps: seq<Step>, k: nat,
                                          i: nat, p: nat)
    requires IsRun(cfg, update, states, steps) && k < |states| && i < |states[k].sessions|
    requires p < |states[k].sessions[i].rawTx|
    ensures var s, packet := states[k].sessions[i], states[k].sessions[i].rawTx[p];
            || packet == AUTH_OK || packet == AUTH_FAILED || packet == AUTH_REQUIRED || packet == [0]
            || Routed(s.serial, packet) in states[k].log
  {
    RunsAreSourced(cfg, update, states, steps, k);
    assert Sourced(states[k].log, states[k].sessions[i].serial, states[k].sessions[i].rawTx);
  }
}
