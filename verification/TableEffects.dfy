/** What the encrypt, UDP-write and control threads' steps do to the session table. */
module TableEffects {
  import opened Net
  import opened InboundOrder
  import opened SessionTable
  import opened ServerMachine
  import opened ServerInvariant
  import opened Permission
  import opened Cidr
  import opened TurnEffects
  import Oversleep

  // ----- Routing -----

  /** A packet from the TUN device goes to session i: to every client that is let in where the
      policy permits it, else to the client at its destination that was active last. */
  predicate Receives(policy: Policy, list: seq<Session>, packet: Bytes, i: nat)
    requires i < |list|
  {
    list[i].authenticated
    && match PacketAddresses(packet)
       case None => false
       case Some((_, destination)) =>
         if ToEverybody(policy, destination) || ToGroup(destination) then Permitted(policy, destination)
         else
           && list[i].address == destination
           && forall j :: 0 <= j < |list| && list[j].authenticated && list[j].address == destination ==>
                list[j].lastActivity < list[i].lastActivity || (list[j].lastActivity == list[i].lastActivity && j <= i)
  }

  /** What is left of a queue after a visit. */
  function Visited(queue: seq<Bytes>, s: Session, flush: FlushOracle): seq<Bytes> {
    if s.serial !in flush then queue
    else if flush[s.serial].gone <= |queue| then queue[flush[s.serial].gone..]
    else []
  }

  /** The session differs in its queue and its activity time only. */
  predicate OnlySent(s: Session, t: Session, queue: seq<Bytes>, flush: FlushOracle, now: Instant) {
    t == s.(rawTx := Visited(queue, s, flush),
            lastActivity := if s.serial in flush && flush[s.serial].sent then now else s.lastActivity)
  }

  /** A routed packet is last in the receiver's queue when that is visited; a broadcast visits
      every queue, a packet to one client only that client's, and nothing else changes. */
  lemma {:induction false} RouteEffects(cfg: Config, st: State, packet: Bytes, flush: FlushOracle, st': State, i: nat)
    requires Next(cfg, st, RoutePacket(packet, flush), st') && i < |st.sessions|
    ensures |st'.sessions| == |st.sessions| && st' == st.(sessions := st'.sessions, log := st'.log)
    ensures var s, t := st.sessions[i], st'.sessions[i];
            if Receives(cfg.policy, st.sessions, packet, i)
            then exists queue :: Appended(s.rawTx, queue, packet) && OnlySent(s, t, queue, flush, st.now)
            else if ToAll(cfg.policy, packet)
            then OnlySent(s, t, s.rawTx, flush, st.now)
            else t == s
  {
    hide PacketAddresses, IsBroadcast, IsMulticast, ToEverybody, ToGroup, Appended, QueuePlain, OnlySent, RouteToAll,
      RouteToOne;
    if PacketAddresses(packet).Some? {
      PermittedIff(cfg.policy, PacketAddresses(packet).value.1);
      BroadcastEffects(st, packet, flush, i);
      UnicastEffects(st, PacketAddresses(packet).value.1, packet, flush, i);
    }
  }

  lemma {:induction false} BroadcastEffects(st: State, packet: Bytes, flush: FlushOracle, i: nat)
    requires i < |st.sessions|
    ensures var r := RouteToAll(st, packet, flush);
            && |r.sessions| == |st.sessions| && r == st.(sessions := r.sessions, log := r.log)
            && var s, t := st.sessions[i], r.sessions[i];
               if s.authenticated
               then exists queue :: Appended(s.rawTx, queue, packet) && OnlySent(s, t, queue, flush, st.now)
               else OnlySent(s, t, s.rawTx, flush, st.now)
  {
    hide Appended, QueuePlain, OnlySent, RoutedTo, FlushOne;
    var s := st.sessions[i];
    QueueAppends(s, packet);
    FlushedOnly(s, s.rawTx, flush, st.now);
    FlushedOnly(s, QueuePlain(s, packet).rawTx, flush, st.now);
    assert s.(rawTx := s.rawTx) == s;
  }

  lemma {:induction false} UnicastEffects(st: State, destination: Ipv4, packet: Bytes, flush: FlushOracle, i: nat)
    requires i < |st.sessions|
    ensures var r := RouteToOne(st, destination, packet, flush);
            && |r.sessions| == |st.sessions| && r == st.(sessions := r.sessions, log := r.log)
            && var s, t := st.sessions[i], r.sessions[i];
               if PickReceiver(st.sessions, destination) == Some(i)
               then exists queue :: Appended(s.rawTx, queue, packet) && OnlySent(s, t, queue, flush, st.now)
               else t == s
  {
    hide Appended, QueuePlain, OnlySent, FlushOne;
    var s := st.sessions[i];
    QueueAppends(s, packet);
    FlushedOnly(s, QueuePlain(s, packet).rawTx, flush, st.now);
  }

  /** The packet is one that goes to everybody. */
  predicate ToAll(policy: Policy, packet: Bytes) {
    match PacketAddresses(packet)
    case None => false
    case Some((_, destination)) =>
      (ToEverybody(policy, destination) || ToGroup(destination)) && Permitted(policy, destination)
  }

  lemma {:induction false} FlushedOnly(s: Session, queue: seq<Bytes>, flush: FlushOracle, now: Instant)
    ensures OnlySent(s, FlushOne(s.(rawTx := queue), flush, now), queue, flush, now)
  {
  }

  /** Visiting all queues. */
  lemma {:induction false} FlushEffects(cfg: Config, st: State, flush: FlushOracle, st': State, i: nat)
    requires Next(cfg, st, FlushSessions(flush), st') && i < |st.sessions|
    ensures |st'.sessions| == |st.sessions| && st' == st.(sessions := st'.sessions)
    ensures OnlySent(st.sessions[i], st'.sessions[i], st.sessions[i].rawTx, flush, st.now)
  {
    hide FlushOne, OnlySent;
    FlushedOnly(st.sessions[i], st.sessions[i].rawTx, flush, st.now);
    assert st.sessions[i].(rawTx := st.sessions[i].rawTx) == st.sessions[i];
  }

  /** The log names exactly the receivers. */
  lemma {:induction false} RouteLog(cfg: Config, st: State, packet: Bytes, flush: FlushOracle, st': State)
    requires Next(cfg, st, RoutePacket(packet, flush), st') && Distinct(st.sessions)
    ensures st.log <= st'.log
    ensures forall e :: e in st'.log[|st.log|..]
                   <==> exists i :: 0 <= i < |st.sessions| && Receives(cfg.policy, st.sessions, packet, i)
                                    && e == Routed(st.sessions[i].serial, packet)
  {
    hide PacketAddresses, IsBroadcast, IsMulticast, ToEverybody, ToGroup, FlushAll, QueueAuthenticated, RoutedTo,
      QueuePlain, FlushOne;
    RoutedToIs(st.sessions, packet);
    if PacketAddresses(packet).Some? {
      PermittedIff(cfg.policy, PacketAddresses(packet).value.1);
    }
    if PacketAddresses(packet).Some? && PickReceiver(st.sessions, PacketAddresses(packet).value.1).Some? {
      var i := PickReceiver(st.sessions, PacketAddresses(packet).value.1).value;
      assert (st.log + [Routed(st.sessions[i].serial, packet)])[|st.log|..] == [Routed(st.sessions[i].serial, packet)];
    }
    assert (st.log + RoutedTo(st.sessions, packet))[|st.log|..] == RoutedTo(st.sessions, packet);
  }

  lemma {:induction false} RoutedToIs(list: seq<Session>, packet: Bytes)
    ensures forall e :: e in RoutedTo(list, packet)
                   <==> exists i :: 0 <= i < |list| && list[i].authenticated && e == Routed(list[i].serial, packet)
  {
    if list != [] {
      var n := |list| - 1;
      RoutedToIs(list[..n], packet);
      forall e ensures e in RoutedTo(list, packet)
         <==> exists i :: 0 <= i < |list| && list[i].authenticated && e == Routed(list[i].serial, packet)
      {
        if i :| 0 <= i < n && list[..n][i].authenticated && e == Routed(list[..n][i].serial, packet) {
          assert list[i] == list[..n][i];
        }
        if i :| 0 <= i < |list| && list[i].authenticated && e == Routed(list[i].serial, packet) {
          if i < n { assert list[..n][i] == list[i]; }
        }
      }
    }
  }

  // ----- UDP write -----

  lemma {:induction false} FailedWritesOnly(cfg: Config, st: State, failed: set<nat>, after: seq<Session>, st': State)
    requires Next(cfg, st, UdpRemove(failed, after), st')
    ensures forall s :: s in st'.sessions <==> s in st.sessions && s.serial !in failed
  {
    FilterIsRemoval(SerialOutside(failed), st.sessions);
    SameElements(after, Filter(SerialOutside(failed), st.sessions));
  }

  lemma {:induction false} SameElements<T>(a: seq<T>, b: seq<T>)
    requires multiset(a) == multiset(b)
    ensures forall x :: x in a <==> x in b
  {
    forall x ensures x in a <==> x in b {
      assert x in a <==> x in multiset(a);
      assert x in b <==> x in multiset(b);
    }
  }

  // ----- Control -----

  /** The retransmission timer of a pending session has run out. */
  predicate Overdue(s: Session, now: Instant) {
    !s.established && s.dtlsDeadline.Some? && s.dtlsDeadline.value <= now
  }

  /** A session is still there after the control thread's section: not disconnected, its handshake
      not given up, neither idle nor too old. */
  predicate Stays(cfg: Config, now: Instant, disconnects: seq<Ipv4>, o: map<nat, RetransmitResult>, s: Session) {
    && !(s.established && s.address in disconnects)
    && (Overdue(s, now) ==> s.serial in o && o[s.serial].NextTimeout?)
    && now < s.lastActivity + (if s.authenticated then 300_000 else if s.established then 120_000 else 10_000)
    && (s.establishedAt.Some? ==> now < s.establishedAt.value + cfg.maxLifetime)
  }

  /** Its next deadline, if wolfSSL has retransmitted. */
  function Moved(now: Instant, o: map<nat, RetransmitResult>, s: Session): Session {
    if Overdue(s, now) && s.serial in o && o[s.serial].NextTimeout?
    then s.(dtlsDeadline := Some(now + o[s.serial].timeout)) else s
  }

  /** Who survives the control thread's section, and as what. */
  lemma {:induction false} TickEffects(cfg: Config, st: State, disconnects: seq<Ipv4>, o: map<nat, RetransmitResult>,
                                       mid: seq<Session>, st': State)
    requires Next(cfg, st, ControlTick(disconnects, o, mid), st')
    ensures forall t :: t in st'.sessions
                   <==> exists s ::
                          s in st.sessions && Stays(cfg, st.now, disconnects, o, s) && t == Moved(st.now, o, s)
  {
    hide RetransmitAll, DisconnectAll, Filter, Matches, Stays, Moved;
    var left := DisconnectAll(st.sessions, disconnects);
    DisconnectExact(st.sessions, disconnects);
    RetransmitExact(left, o, st.now);
    SameElements(mid, RetransmitAll(left, o, st.now));
    FilterIsRemoval(Unexpired(st.now, cfg.maxLifetime), mid);
    forall s: Session ensures (!(s.established && s.address in disconnects)
                      && RetransmitOne(s, o, st.now).Some?
                      && Matches(Unexpired(st.now, cfg.maxLifetime), RetransmitOne(s, o, st.now).value))
                <==> Stays(cfg, st.now, disconnects, o, s)
      ensures Stays(cfg, st.now, disconnects, o, s) ==> RetransmitOne(s, o, st.now) == Some(Moved(st.now, o, s))
    {
      StaysIff(cfg, st.now, disconnects, o, s);
    }
    forall t ensures t in st'.sessions
       <==> exists s :: s in st.sessions && Stays(cfg, st.now, disconnects, o, s) && t == Moved(st.now, o, s)
    {
      if t in st'.sessions {
        var s :| s in left && RetransmitOne(s, o, st.now) == Some(t);
        assert s in st.sessions && Stays(cfg, st.now, disconnects, o, s);
      }
      if s :| s in st.sessions && Stays(cfg, st.now, disconnects, o, s) && t == Moved(st.now, o, s) {
        assert s in left && RetransmitOne(s, o, st.now) == Some(t);
        assert t in mid;
      }
    }
  }

  lemma {:induction false} StaysIff(cfg: Config, now: Instant, disconnects: seq<Ipv4>, o: map<nat, RetransmitResult>,
                                    s: Session)
    ensures Stays(cfg, now, disconnects, o, s)
       <==> && !(s.established && s.address in disconnects) && RetransmitOne(s, o, now).Some?
            && Matches(Unexpired(now, cfg.maxLifetime), RetransmitOne(s, o, now).value)
    ensures Stays(cfg, now, disconnects, o, s) ==> RetransmitOne(s, o, now) == Some(Moved(now, o, s))
  {
    hide Matches;
    Oversleep.ExpiryIsExact(s, now, cfg.maxLifetime);
    if RetransmitOne(s, o, now).Some? { Oversleep.ExpiryIsExact(RetransmitOne(s, o, now).value, now, cfg.maxLifetime); }
  }

  lemma {:induction false} DisconnectExact(list: seq<Session>, addresses: seq<Ipv4>)
    ensures forall s :: s in DisconnectAll(list, addresses)
                   <==> s in list && !(s.established && s.address in addresses)
    decreases |addresses|
  {
    if addresses != [] {
      FilterIsRemoval(NotConnectedAt(addresses[0]), list);
      hide Filter;
      DisconnectExact(Filter(NotConnectedAt(addresses[0]), list), addresses[1..]);
      assert addresses == [addresses[0]] + addresses[1..];
    }
  }

  lemma {:induction false} RetransmitExact(list: seq<Session>, o: map<nat, RetransmitResult>, now: Instant)
    ensures forall t :: t in RetransmitAll(list, o, now)
                   <==> exists s :: s in list && RetransmitOne(s, o, now) == Some(t)
  {
    hide RetransmitOne;
    if list != [] {
      var n := |list| - 1;
      RetransmitExact(list[..n], o, now);
      assert list == list[..n] + [list[n]];
      forall t
        ensures t in RetransmitAll(list, o, now) <==> exists s :: s in list && RetransmitOne(s, o, now) == Some(t)
      {
        if s :| s in list && RetransmitOne(s, o, now) == Some(t) {
          assert s in list[..n] || s == list[n];
        }
        if s :| s in list[..n] && RetransmitOne(s, o, now) == Some(t) {
          assert s in list;
        }
      }
    }
  }
}
