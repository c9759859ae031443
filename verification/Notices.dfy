/** The control thread publishes the session table when it wakes up.  Whatever another thread does,
    a change that the watchers can see leaves a wake-up pending for it. */
module Notices {
  import opened Net
  import opened InboundOrder
  import opened Login
  import opened SessionTable
  import opened ServerMachine
  import opened ServerInvariant
  import opened StatusPublish

  /** What of a session the watchers can see. */
  predicate SameShown(a: Session, b: Session) {
    && a.authenticated == b.authenticated && a.address == b.address
    && a.fingerprint == b.fingerprint && a.peer == b.peer
  }

  lemma {:induction false} SameFaces(a: seq<Session>, b: seq<Session>)
    requires |a| == |b| && forall i :: 0 <= i < |a| ==> SameShown(a[i], b[i])
    ensures Faces(a) == Faces(b)
  {
    if a != [] { SameFaces(a[1..], b[1..]); }
  }

  lemma {:induction false} UnseenPush(list: seq<Session>, s: Session)
    requires !s.authenticated
    ensures Faces(list + [s]) == Faces(list)
  {
    FacesAppend(list, [s]);
    LastFace(s);
    assert Faces(list) + [] == Faces(list);
  }

  /** Nothing visible has changed, or a wake-up is pending. */
  predicate Noticed(st: State, st': State) {
    st'.wakePending || (Faces(st'.sessions) == Faces(st.sessions) && (st.wakePending ==> st'.wakePending))
  }

  lemma {:induction false} NoticedTwice(st: State, mid: State, st': State)
    requires Noticed(st, mid) && Noticed(mid, st')
    ensures Noticed(st, st')
  {
  }

  lemma {:induction false} PointwiseNoticed(st: State, st': State)
    requires |st'.sessions| == |st.sessions| && (st.wakePending ==> st'.wakePending)
    requires forall i :: 0 <= i < |st.sessions| ==> SameShown(st.sessions[i], st'.sessions[i])
    ensures Noticed(st, st')
  {
    SameFaces(st.sessions, st'.sessions);
  }

  /** A removal is noticed: an unchanged length means that nobody was removed. */
  lemma {:induction false} FilterNoticed(st: State, q: Query)
    ensures Noticed(st, WithSessions(st, Filter(q, st.sessions)))
  {
    FullFilter(q, st.sessions);
  }

  lemma {:induction false} FullFilter(q: Query, list: seq<Session>)
    ensures |Filter(q, list)| <= |list| && (|Filter(q, list)| == |list| ==> Filter(q, list) == list)
  {
    hide Matches;
    if list != [] {
      var n := |list| - 1;
      FullFilter(q, list[..n]);
      assert list == list[..n] + [list[n]];
    }
  }

  lemma {:induction false} FullKeepLast(list: seq<Session>)
    ensures |KeepLast(list)| <= |list| && (|KeepLast(list)| == |list| ==> KeepLast(list) == list)
  {
    if list != [] {
      FullKeepLast(list[1..]);
      assert list == [list[0]] + list[1..];
    }
  }

  lemma {:induction false} TurnNoticed(cfg: Config, st: State, s: Session, o: DrainOracle)
    requires Shape(st)
    ensures TurnOf(cfg, st, s, o).wake || SameShown(s, TurnOf(cfg, st, s, o).session)
  {
    hide PacketAddresses, LoginMatches, DestinationPermitted, Retry, AfterRead;
  }

  lemma {:induction false} DrainAtNoticed(cfg: Config, st: State, i: nat, o: DrainOracle)
    requires Shape(st) && i < |st.sessions|
    ensures Noticed(st, DrainAt(cfg, st, i, o))
  {
    hide DrainTurn, SameShown;
    var r := DrainAt(cfg, st, i, o);
    SelfShown();
    if NeedsTurn(st.sessions[i]) {
      TurnNoticed(cfg, st, st.sessions[i], o);
    }
    if !r.wakePending { PointwiseNoticed(st, r); }
  }

  lemma {:induction false} SelfShown()
    ensures forall s :: SameShown(s, s)
  {
  }

  lemma {:induction false} DrainNoticed(cfg: Config, st: State, i: nat, oracles: seq<DrainOracle>)
    requires Shape(st) && i <= |st.sessions| == |oracles|
    ensures Noticed(st, DrainFrom(cfg, st, i, oracles))
    decreases |oracles| - i
  {
    hide DrainAt, Faces;
    if i < |oracles| && !st.stopped {
      var mid := DrainAt(cfg, st, i, oracles[i]);
      DrainAtLength(cfg, st, i, oracles[i]);
      DrainAtNoticed(cfg, st, i, oracles[i]);
      DrainNoticed(cfg, mid, i + 1, oracles);
      NoticedTwice(st, mid, DrainFrom(cfg, st, i, oracles));
    }
  }

  lemma {:induction false} DrainAtLength(cfg: Config, st: State, i: nat, o: DrainOracle)
    requires Shape(st) && i < |st.sessions|
    ensures |DrainAt(cfg, st, i, o).sessions| == |st.sessions| && Shape(DrainAt(cfg, st, i, o))
  {
    hide DrainTurn;
  }

  lemma {:induction false} LocateNoticed(cfg: Config, st: State, peer: Peer, a: Admission)
    ensures Noticed(st, Locate(cfg, st, peer, a).state)
  {
    hide Faces, Count, Filter, SwapRemove, OldestPending, PositionOf;
    if PeerIp(peer).Some? {
      FilterNoticed(st, NotPendingFrom(PeerIp(peer).value));
      RoomNoticed(cfg, st, peer, PeerIp(peer).value, a.acceptorOk);
    }
  }

  lemma {:induction false} RoomNoticed(cfg: Config, st: State, peer: Peer, ip: Ipv4, acceptorOk: bool)
    ensures Noticed(st, AdmitIfRoom(cfg, st, peer, ip, acceptorOk).state)
  {
    hide Faces, Count, OldestPending;
    var oldest := OldestPending(st.sessions);
    if oldest.Some? { SwapRemoveIsRemoval(st.sessions, oldest.value); }
  }

  lemma {:induction false} HandshakeNoticed(cfg: Config, st: State, i: nat, h: HandshakeResult, after: seq<Session>,
                                            st': State)
    requires Shape(st) && i < |st.sessions| && HandshakeStep(cfg, st, i, h, after, st')
    ensures Noticed(st, st')
  {
    hide Faces, Count, Filter, Matches;
    SwapRemoveIsRemoval(st.sessions, i);
  }

  lemma {:induction false} ReceiveNoticed(cfg: Config, st: State, d: Datagram, a: Admission, inject: InjectResult,
                                          h: HandshakeResult, after: seq<Session>, st': State)
    requires Shape(st) && ReceiveStep(cfg, st, d, a, inject, h, after, st')
    ensures Noticed(st, st')
  {
    hide Faces, Locate, HandshakeStep, Arrive, Noticed;
    var located := Locate(cfg, st, d.peer, a);
    var arrived := Arrived(located, d.bytes, inject);
    LocateNoticed(cfg, st, d.peer, a);
    PointwiseNoticed(located.state, arrived);
    NoticedTwice(st, located.state, arrived);
    if located.index.Some? && !InjectRefused(located, inject) {
      HandshakeNoticed(cfg, arrived, located.index.value, h, after, st');
      NoticedTwice(st, arrived, st');
    }
  }

  lemma {:induction false} RouteNoticed(cfg: Config, st: State, packet: Bytes, flush: FlushOracle)
    ensures Noticed(st, Route(cfg, st, packet, flush))
  {
    hide PacketAddresses, FlushAll, QueueAuthenticated, PickReceiver, RoutedTo, FlushOne, QueuePlain;
    RouteShape(cfg, st, packet, flush);
    PointwiseNoticed(st, Route(cfg, st, packet, flush));
  }

  /** Of the control thread's own steps, which are followed by a publication, this says nothing. */
  predicate OwnStep(step: Step) { step.ControlTick? || step.Retain? || step.Unblock? }

  /** No other thread changes what the watchers are shown without waking the control thread. */
  lemma {:induction false} ChangesAreNoticed(cfg: Config, st: State, step: Step, st': State)
    requires Next(cfg, st, step, st') && !OwnStep(step)
    ensures Faces(st'.sessions) == Faces(st.sessions) || st'.wakePending
    ensures st.wakePending ==> st'.wakePending
  {
    hide Faces, DrainFrom, KeepLast, ReceiveStep, Route, FlushAll, TickStep, Filter, NextWake, Matches, FlushOne;
    match step {
      case Drain(oracles) => DrainNoticed(cfg, st, 0, oracles);
      case Dedupe => FullKeepLast(st.sessions);
      case Receive(d, a, inject, h, after) => ReceiveNoticed(cfg, st, d, a, inject, h, after, st');
      case RoutePacket(packet, flush) => RouteNoticed(cfg, st, packet, flush);
      case FlushSessions(flush) => FlushNoticed(st, flush);
      case UdpRemove(failed, after) =>
        FullFilter(SerialOutside(failed), st.sessions);
        assert |multiset(after)| == |multiset(Filter(SerialOutside(failed), st.sessions))|;
      case _ =>
    }
  }

  lemma {:induction false} FlushNoticed(st: State, flush: FlushOracle)
    ensures Noticed(st, st.(sessions := FlushAll(st.sessions, flush, st.now)))
  {
    PointwiseNoticed(st, st.(sessions := FlushAll(st.sessions, flush, st.now)));
  }
}
