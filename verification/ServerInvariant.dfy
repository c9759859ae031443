/** What every step of the server keeps. */
module ServerInvariant {
  import opened Net
  import opened InboundOrder
  import opened Login
  import opened SessionTable
  import opened Cidr
  import opened ServerMachine

  // ----- History -----

  ghost predicate LoggedIn(log: seq<Event>, serial: nat) {
    exists e :: e in log && e.LoginFrame? && e.serial == serial && e.accepted
  }

  /** `c` records the establishment of a session that is now allowed to exchange packets. */
  ghost predicate Cleared(log: seq<Event>, c: Event) {
    c.Connected? && c in log && (c.loginRequired ==> LoggedIn(log, c.serial))
  }

  ghost predicate ExpectedLogin(updates: seq<Update>, before: seq<Event>, e: Event, c: Event)
    requires e.LoginFrame?
  {
    && c.Connected? && c in before && c.serial == e.serial && c.loginRequired
    && e.under < |updates|
    && (e.accepted <==> var expected := Lookup(updates[e.under].logins, c.address);
                        expected.Some? && LoginMatches(e.frame, expected.value))
  }

  ghost predicate ExpectedWrite(cfg: Config, before: seq<Event>, e: Event, c: Event)
    requires e.TunWrite?
  {
    && Cleared(before, c) && c.serial == e.serial
    && PacketAddresses(e.packet).Some?
    && PacketAddresses(e.packet).value.0 == c.address
    && DestinationPermitted(cfg.policy, PacketAddresses(e.packet).value.1)
  }

  ghost predicate ExpectedRoute(cfg: Config, before: seq<Event>, e: Event, c: Event)
    requires e.Routed?
  {
    && Cleared(before, c) && c.serial == e.serial
    && PacketAddresses(e.packet).Some?
    && var destination := PacketAddresses(e.packet).value.1;
       var broadcast := IsBroadcast(destination, cfg.policy.network, cfg.policy.prefix);
       var multicast := IsMulticast(destination);
       if broadcast || multicast then DestinationPermitted(cfg.policy, destination) else destination == c.address
  }

  /** Why an event may follow the ones before it. */
  ghost predicate Justified(cfg: Config, updates: seq<Update>, before: seq<Event>, e: Event) {
    match e
    case Connected(serial, address, fingerprint, under, loginRequired, evidence) =>
      && (cfg.verifySan ==> evidence.san.Passes?) && PeerIp(evidence.peer).Some? && evidence.source.Passes?
      && under < |updates|
      && Lookup(updates[under].bindings, address) == Some(fingerprint)
      && (loginRequired <==> address in updates[under].logins)
      && forall f :: f in before ==> f.serial != serial
    case LoginFrame(serial, _, _, _) =>
      && (forall f :: f in before && f.LoginFrame? ==> f.serial != serial)
      && exists c :: ExpectedLogin(updates, before, e, c)
    case TunWrite(_, _) => exists c :: ExpectedWrite(cfg, before, e, c)
    case Routed(_, _) => exists c :: ExpectedRoute(cfg, before, e, c)
  }

  ghost predicate LogOk(cfg: Config, updates: seq<Update>, nextSerial: nat, log: seq<Event>) {
    && (forall k :: 0 <= k < |log| ==> Justified(cfg, updates, log[..k], log[k]))
    && (forall e :: e in log ==> e.serial < nextSerial)
  }

  // ----- Sessions -----

  /** The record is consistent: flags, timestamps, queue bounds, inbound order. */
  ghost predicate RecordOk(now: Instant, s: Session) {
    && (s.authenticated ==> s.established)
    && (s.established <==> s.fingerprint.Some?)
    && (s.established <==> s.establishedAt.Some?)
    && (s.loginAttempted ==> s.established)
    && (s.established ==> s.dtlsDeadline.None?)
    && s.lastActivity <= now
    && (s.establishedAt.Some? ==> s.establishedAt.value <= now)
    && |s.rawTx| <= LIMIT
    && Ordered(s.inbound) && DrainOk(s.inbound)
  }

  /** An established session was authorised by the configuration that decrypt used, and by
      every configuration retained since, with its login unchanged across those. */
  ghost predicate LineageOk(updates: seq<Update>, taken: nat, s: Session) {
    s.established && s.fingerprint.Some? ==>
      && s.boundUnder <= s.retainedAfter < |updates|
      && s.boundUnder <= taken
      && Lookup(updates[s.boundUnder].bindings, s.address) == s.fingerprint
      && forall v :: s.retainedAfter < v < |updates| ==>
                       && Lookup(updates[v].bindings, s.address) == s.fingerprint
                       && Lookup(updates[v - 1].logins, s.address) == Lookup(updates[v].logins, s.address)
  }

  ghost predicate HistoryOk(updates: seq<Update>, log: seq<Event>, s: Session) {
    if s.established && s.fingerprint.Some? && s.boundUnder < |updates| then
      var loginRequired := s.address in updates[s.boundUnder].logins;
      && (exists e :: Connected(s.serial, s.address, s.fingerprint.value, s.boundUnder, loginRequired, e) in log)
      && (!s.authenticated ==> loginRequired)
      && (s.authenticated && loginRequired ==> LoggedIn(log, s.serial))
      && (!s.loginAttempted ==> forall e :: e in log && e.LoginFrame? ==> e.serial != s.serial)
    else
      forall e :: e in log ==> e.serial != s.serial
  }

  ghost predicate SessionOk(st: State, s: Session) {
    && s.serial < st.nextSerial
    && RecordOk(st.now, s)
    && LineageOk(st.updates, st.taken, s)
    && HistoryOk(st.updates, st.log, s)
  }

  // ----- The table -----

  function Addresses(list: seq<Session>): set<Ipv4> {
    set s | s in list && s.established :: s.address
  }

  ghost predicate Bounded(cfg: Config, list: seq<Session>) {
    && Count(Pending, list) <= cfg.maxPending
    && (forall ip :: Count(PendingFrom(ip), list) <= MAX_PENDING_PER_IP)
    && |list| <= cfg.maxClients - 1 + cfg.maxPending
  }

  ghost predicate Core(cfg: Config, st: State) {
    && ValidConfig(cfg)
    && Shape(st)
    && Distinct(st.sessions)
    && Bounded(cfg, st.sessions)
    && (forall i :: 0 <= i < |st.sessions| ==> SessionOk(st, st.sessions[i]))
    && LogOk(cfg, st.updates, st.nextSerial, st.log)
  }

  ghost predicate Good(cfg: Config, st: State) {
    Core(cfg, st) && |Addresses(st.sessions)| <= cfg.maxClients
  }

  // ----- Three kinds of change -----

  lemma AddressesMonotone(less: seq<Session>, more: seq<Session>)
    requires multiset(less) <= multiset(more)
    ensures Addresses(less) <= Addresses(more)
    ensures |Addresses(less)| <= |Addresses(more)|
  {
    forall s | s in less ensures s in more {
      assert s in multiset(less);
    }
    CardinalityMonotone(Addresses(less), Addresses(more));
  }

  lemma CardinalityMonotone<T>(a: set<T>, b: set<T>)
    requires a <= b
    ensures |a| <= |b|
  {
    assert b == a + (b - a);
  }

  lemma BoundedMonotone(cfg: Config, less: seq<Session>, more: seq<Session>)
    requires multiset(less) <= multiset(more) && Bounded(cfg, more)
    ensures Bounded(cfg, less)
  {
    CountMonotone(Pending, less, more);
    forall ip ensures Count(PendingFrom(ip), less) <= MAX_PENDING_PER_IP {
      CountMonotone(PendingFrom(ip), less, more);
    }
  }

  /** Sessions are removed; nothing else that Core reads changes. */
  lemma RemovalKeepsCore(cfg: Config, st: State, st': State)
    requires Core(cfg, st) && Shape(st')
    requires multiset(st'.sessions) <= multiset(st.sessions)
    requires st'.nextSerial == st.nextSerial && st'.now == st.now && st'.updates == st.updates
    requires st'.taken == st.taken && st'.log == st.log
    ensures Core(cfg, st')
    ensures Addresses(st'.sessions) <= Addresses(st.sessions)
    ensures |Addresses(st'.sessions)| <= |Addresses(st.sessions)|
  {
    AddressesMonotone(st'.sessions, st.sessions);
    DistinctMonotone(st'.sessions, st.sessions);
    BoundedMonotone(cfg, st'.sessions, st.sessions);
    forall i | 0 <= i < |st'.sessions| ensures SessionOk(st', st'.sessions[i]) {
      assert st'.sessions[i] in multiset(st'.sessions);
      assert st'.sessions[i] in st.sessions;
    }
  }

  /** What the table-wide invariants read of a session. */
  predicate SameFace(a: Session, b: Session) {
    a.serial == b.serial && a.peer == b.peer && a.established == b.established && a.address == b.address
  }

  lemma PointwiseKeepsTable(cfg: Config, list: seq<Session>, list': seq<Session>)
    requires |list| == |list'| && Distinct(list) && Bounded(cfg, list)
    requires forall i :: 0 <= i < |list| ==> SameFace(list[i], list'[i])
    ensures Distinct(list') && Bounded(cfg, list') && Addresses(list') == Addresses(list)
  {
    CountSame(Pending, list, list');
    forall ip ensures Count(PendingFrom(ip), list') <= MAX_PENDING_PER_IP {
      CountSame(PendingFrom(ip), list, list');
    }
    assert Addresses(list') == Addresses(list) by {
      forall i | 0 <= i < |list| ensures list[i].address == list'[i].address {}
    }
  }

  /** Events about other sessions leave a session's history as it was. */
  lemma HistoryFrame(updates: seq<Update>, log: seq<Event>, events: seq<Event>, s: Session)
    requires HistoryOk(updates, log, s)
    requires forall e :: e in events ==> e.serial != s.serial || e.TunWrite? || e.Routed?
    requires !s.established ==> forall e :: e in events ==> e.serial != s.serial
    requires s.established ==> s.fingerprint.Some? && s.boundUnder < |updates|
    ensures HistoryOk(updates, log + events, s)
  {
  }

  /** Appending one justified event keeps the log in order. */
  lemma LogPush(cfg: Config, updates: seq<Update>, nextSerial: nat, log: seq<Event>, e: Event)
    requires LogOk(cfg, updates, nextSerial, log) && Justified(cfg, updates, log, e) && e.serial < nextSerial
    ensures LogOk(cfg, updates, nextSerial, log + [e])
  {
    var longer := log + [e];
    forall k | 0 <= k < |longer| ensures Justified(cfg, updates, longer[..k], longer[k]) {
      if k < |log| {
        assert longer[..k] == log[..k];
      } else {
        assert longer[..k] == log;
      }
    }
  }

  // ----- The drain pass -----

  function TurnOf(cfg: Config, st: State, s: Session, o: DrainOracle): Turn
    requires Shape(st)
  {
    DrainTurn(cfg.policy, st.taken, Current(st).logins, st.now, s, o)
  }

  /** A turn touches neither the session's identity nor its certificate. */
  predicate SameBinding(a: Session, b: Session) {
    && SameFace(a, b) && a.fingerprint == b.fingerprint
    && a.boundUnder == b.boundUnder && a.retainedAfter == b.retainedAfter
  }

  lemma ReadKeepsInbound(b: Inbound, read: ReadResult)
    requires Ordered(b)
    ensures Ordered(AfterRead(b, read)) && DrainOk(AfterRead(b, read))
  {
    ReadKeepsDrain(b, read);
  }

  lemma TunnelRecord(policy: Policy, s: Session, packet: Bytes, tunOk: bool, now: Instant)
    requires RecordOk(now, s)
    ensures SameBinding(s, TunnelTurn(policy, s, packet, tunOk, now).session)
    ensures RecordOk(now, TunnelTurn(policy, s, packet, tunOk, now).session)
  {
  }

  lemma LoginRecord(s: Session, frame: Bytes, under: nat, expected: Option<Credentials>, now: Instant)
    requires RecordOk(now, s) && s.established
    ensures SameBinding(s, LoginTurn(s, frame, under, expected, now).session)
    ensures RecordOk(now, LoginTurn(s, frame, under, expected, now).session)
  {
  }

  lemma ReadRecord(policy: Policy, under: nat, logins: map<Ipv4, Credentials>, now: Instant, s: Session, o: DrainOracle)
    requires RecordOk(now, s) && s.established
    ensures SameBinding(s, ReadTurn(policy, under, logins, now, s, o).session)
    ensures RecordOk(now, ReadTurn(policy, under, logins, now, s, o).session)
  {
    hide Ordered, DrainOk, AfterRead;
    ReadKeepsInbound(s.inbound, o.read);
    var r := s.(inbound := AfterRead(s.inbound, o.read));
    assert RecordOk(now, r);
    if o.read.Data? && o.read.packet != [] {
      if !r.authenticated {
        LoginRecord(r, o.read.packet, under, Lookup(logins, r.address), now);
      } else if o.read.packet != KEEPALIVE_PACKET {
        TunnelRecord(policy, r, o.read.packet, o.tunOk, now);
      }
    }
  }

  lemma TurnRecord(cfg: Config, st: State, s: Session, o: DrainOracle)
    requires Shape(st) && RecordOk(st.now, s) && s.established
    ensures SameBinding(s, TurnOf(cfg, st, s, o).session)
    ensures RecordOk(st.now, TurnOf(cfg, st, s, o).session)
  {
    ReadRecord(cfg.policy, st.taken, Current(st).logins, st.now, s, o);
    var b := ReadTurn(cfg.policy, st.taken, Current(st).logins, st.now, s, o).session.inbound;
    RetryOrdered(b, o.inject);
    InjectKeepsDrain(b, [], o.inject);
  }

  lemma LoggedInGrows(log: seq<Event>, events: seq<Event>, serial: nat)
    requires LoggedIn(log, serial)
    ensures LoggedIn(log + events, serial)
  {
    var e :| e in log && e.LoginFrame? && e.serial == serial && e.accepted;
    assert e in log + events;
  }

  /** The establishment event of an established session. */
  ghost function ConnectionOf(updates: seq<Update>, log: seq<Event>, s: Session): (c: Event)
    requires s.established && s.fingerprint.Some? && s.boundUnder < |updates| && HistoryOk(updates, log, s)
    ensures c in log && c.Connected? && c.serial == s.serial && c.address == s.address
    ensures c.loginRequired <==> s.address in updates[s.boundUnder].logins
  {
    var e :| Connected(s.serial, s.address, s.fingerprint.value, s.boundUnder,
                       s.address in updates[s.boundUnder].logins, e) in log;
    Connected(s.serial, s.address, s.fingerprint.value, s.boundUnder, s.address in updates[s.boundUnder].logins, e)
  }

  lemma LoginHistory(cfg: Config, st: State, s: Session, frame: Bytes)
    requires Shape(st) && SessionOk(st, s) && s.established && !s.authenticated && !s.loginAttempted
    requires LogOk(cfg, st.updates, st.nextSerial, st.log)
    ensures var t := LoginTurn(s, frame, st.taken, Lookup(Current(st).logins, s.address), st.now);
            && LogOk(cfg, st.updates, st.nextSerial, st.log + t.events)
            && HistoryOk(st.updates, st.log + t.events, t.session)
  {
    var t := LoginTurn(s, frame, st.taken, Lookup(Current(st).logins, s.address), st.now);
    var e := t.events[0];
    assert t.events == [e];
    assert ExpectedLogin(st.updates, st.log, e, ConnectionOf(st.updates, st.log, s));
    assert e in st.log + [e];
    LogPush(cfg, st.updates, st.nextSerial, st.log, e);
  }

  lemma TunnelHistory(cfg: Config, st: State, s: Session, packet: Bytes, tunOk: bool)
    requires Shape(st) && SessionOk(st, s) && s.authenticated
    requires LogOk(cfg, st.updates, st.nextSerial, st.log)
    ensures var t := TunnelTurn(cfg.policy, s, packet, tunOk, st.now);
            && LogOk(cfg, st.updates, st.nextSerial, st.log + t.events)
            && HistoryOk(st.updates, st.log + t.events, t.session)
  {
    var t := TunnelTurn(cfg.policy, s, packet, tunOk, st.now);
    if t.events == [] {
      assert st.log + t.events == st.log;
    } else {
      var e := t.events[0];
      assert t.events == [e];
      var c := ConnectionOf(st.updates, st.log, s);
      assert ExpectedWrite(cfg, st.log, e, c);
      if c.loginRequired { LoggedInGrows(st.log, [e], s.serial); }
      LogPush(cfg, st.updates, st.nextSerial, st.log, e);
    }
  }

  /** A turn that leaves no event keeps the history. */
  lemma QuietHistory(cfg: Config, st: State, s: Session, s': Session)
    requires SessionOk(st, s) && SameBinding(s, s')
    requires s'.authenticated == s.authenticated && s'.loginAttempted == s.loginAttempted
    requires LogOk(cfg, st.updates, st.nextSerial, st.log)
    ensures LogOk(cfg, st.updates, st.nextSerial, st.log + [])
    ensures HistoryOk(st.updates, st.log + [], s')
  {
    assert st.log + [] == st.log;
  }

  lemma ReadHistory(cfg: Config, st: State, s: Session, o: DrainOracle)
    requires Shape(st) && SessionOk(st, s) && s.established
    requires LogOk(cfg, st.updates, st.nextSerial, st.log)
    ensures var t := ReadTurn(cfg.policy, st.taken, Current(st).logins, st.now, s, o);
            && LogOk(cfg, st.updates, st.nextSerial, st.log + t.events)
            && HistoryOk(st.updates, st.log + t.events, t.session)
  {
    if o.read.Data? {
      var packet := o.read.packet;
      var r := s.(inbound := AfterRead(s.inbound, o.read));
      ReadKeepsInbound(s.inbound, o.read);
      assert SessionOk(st, r);
      if packet != [] && !r.authenticated && !r.loginAttempted {
        LoginHistory(cfg, st, r, packet);
      } else if packet != [] && r.authenticated && packet != KEEPALIVE_PACKET {
        TunnelHistory(cfg, st, r, packet, o.tunOk);
      } else {
        QuietHistory(cfg, st, s, ReadTurn(cfg.policy, st.taken, Current(st).logins, st.now, s, o).session);
      }
    } else {
      QuietHistory(cfg, st, s, ReadTurn(cfg.policy, st.taken, Current(st).logins, st.now, s, o).session);
    }
  }

  lemma TurnHistory(cfg: Config, st: State, s: Session, o: DrainOracle)
    requires Shape(st) && SessionOk(st, s) && s.established
    requires LogOk(cfg, st.updates, st.nextSerial, st.log)
    ensures LogOk(cfg, st.updates, st.nextSerial, st.log + TurnOf(cfg, st, s, o).events)
    ensures HistoryOk(st.updates, st.log + TurnOf(cfg, st, s, o).events, TurnOf(cfg, st, s, o).session)
  {
    var t := ReadTurn(cfg.policy, st.taken, Current(st).logins, st.now, s, o);
    ReadHistory(cfg, st, s, o);
    RetryHistory(st.updates, st.log + t.events, t.session, Retry(t.session.inbound, o.inject));
  }

  lemma RetryHistory(updates: seq<Update>, log: seq<Event>, s: Session, b: Inbound)
    requires HistoryOk(updates, log, s)
    ensures HistoryOk(updates, log, s.(inbound := b))
  {
  }

  /** One session is replaced by a later version of itself, with the events that explain it. */
  lemma UpdateKeepsGood(cfg: Config, st: State, i: nat, s: Session, events: seq<Event>, st': State)
    requires Good(cfg, st) && i < |st.sessions| && Shape(st')
    requires SameBinding(st.sessions[i], s) && RecordOk(st.now, s)
    requires LogOk(cfg, st.updates, st.nextSerial, st.log + events)
    requires forall e :: e in events ==> e.serial == s.serial
    requires HistoryOk(st.updates, st.log + events, s)
    requires st'.sessions == st.sessions[i := s] && st'.log == st.log + events
    requires st'.nextSerial == st.nextSerial && st'.now == st.now && st'.updates == st.updates && st'.taken == st.taken
    ensures Good(cfg, st')
  {
    PointwiseKeepsTable(cfg, st.sessions, st'.sessions);
    forall j | 0 <= j < |st'.sessions| ensures SessionOk(st', st'.sessions[j]) {
      if j != i {
        assert st.sessions[j].serial != s.serial;
        HistoryFrame(st.updates, st.log, events, st.sessions[j]);
      }
    }
  }

  lemma TurnEvents(cfg: Config, st: State, s: Session, o: DrainOracle)
    requires Shape(st)
    ensures forall e :: e in TurnOf(cfg, st, s, o).events ==> e.serial == s.serial
  {
  }

  lemma DrainAtKeepsGood(cfg: Config, st: State, i: nat, o: DrainOracle)
    requires Good(cfg, st) && i < |st.sessions|
    ensures Good(cfg, DrainAt(cfg, st, i, o))
  {
    var s := st.sessions[i];
    if NeedsTurn(s) {
      TurnRecord(cfg, st, s, o);
      TurnHistory(cfg, st, s, o);
      TurnEvents(cfg, st, s, o);
      var t := TurnOf(cfg, st, s, o);
      UpdateKeepsGood(cfg, st, i, t.session, t.events, DrainAt(cfg, st, i, o));
    }
  }

  lemma {:induction false} DrainKeepsGood(cfg: Config, st: State, i: nat, oracles: seq<DrainOracle>)
    requires Good(cfg, st) && i <= |st.sessions| == |oracles|
    ensures Good(cfg, DrainFrom(cfg, st, i, oracles))
    decreases |oracles| - i
  {
    if i < |oracles| && !st.stopped {
      DrainAtKeepsGood(cfg, st, i, oracles[i]);
      DrainKeepsGood(cfg, DrainAt(cfg, st, i, oracles[i]), i + 1, oracles);
    }
  }

  // ----- Admission -----

  lemma {:induction false} AddressesAtMostEstablished(list: seq<Session>)
    ensures |Addresses(list)| <= Count(Established, list)
  {
    if list == [] {
      assert Addresses(list) == {};
    } else {
      var n := |list| - 1;
      AddressesAtMostEstablished(list[..n]);
      assert list == list[..n] + [list[n]];
      assert Addresses(list) == Addresses(list[..n]) + if list[n].established then {list[n].address} else {};
    }
  }

  lemma AdmitBounds(cfg: Config, list: seq<Session>, s: Session, ip: Ipv4)
    requires ValidConfig(cfg) && Bounded(cfg, list)
    requires !s.established && PeerIp(s.peer) == Some(ip)
    requires Count(Established, list) < cfg.maxClients && Count(Pending, list) < cfg.maxPending
    requires Count(PendingFrom(ip), list) < MAX_PENDING_PER_IP
    ensures Bounded(cfg, list + [s])
  {
    CountPush(Pending, list, s);
    CountSplit(list);
    forall other ensures Count(PendingFrom(other), list + [s]) <= MAX_PENDING_PER_IP {
      CountPush(PendingFrom(other), list, s);
    }
  }

  lemma AdmitRecord(st: State, peer: Peer)
    requires forall e :: e in st.log ==> e.serial < st.nextSerial
    ensures SessionOk(Admit(st, peer), NewSession(st, peer))
  {
    assert Ordered(EMPTY);
    NothingDue();
  }

  lemma AdmitSessions(cfg: Config, st: State, peer: Peer)
    requires Core(cfg, st)
    ensures var st' := Admit(st, peer);
            && (forall i :: 0 <= i < |st'.sessions| ==> SessionOk(st', st'.sessions[i]))
            && LogOk(cfg, st'.updates, st'.nextSerial, st'.log)
  {
    var st' := Admit(st, peer);
    AdmitRecord(st, peer);
    forall i | 0 <= i < |st'.sessions| ensures SessionOk(st', st'.sessions[i]) {
      if i < |st.sessions| {
        assert SessionOk(st, st.sessions[i]);
      }
    }
  }

  lemma AdmitKeepsGood(cfg: Config, st: State, peer: Peer)
    requires Good(cfg, st) && PeerIp(peer).Some?
    requires forall s :: s in st.sessions ==> s.peer != peer
    requires Count(Established, st.sessions) < cfg.maxClients && Count(Pending, st.sessions) < cfg.maxPending
    requires Count(PendingFrom(PeerIp(peer).value), st.sessions) < MAX_PENDING_PER_IP
    ensures Good(cfg, Admit(st, peer))
  {
    var s := NewSession(st, peer);
    AdmitBounds(cfg, st.sessions, s, PeerIp(peer).value);
    AdmitSessions(cfg, st, peer);
    assert Distinct(st.sessions + [s]) by {
      forall i | 0 <= i < |st.sessions| ensures st.sessions[i].serial < s.serial {
        assert SessionOk(st, st.sessions[i]);
      }
    }
    assert Addresses(st.sessions + [s]) == Addresses(st.sessions);
  }

  /** The table with a place for one more pending session. */
  lemma RoomForOne(cfg: Config, st: State)
    requires ValidConfig(cfg) && Bounded(cfg, st.sessions) && Count(Pending, st.sessions) >= cfg.maxPending
    ensures var oldest := OldestPending(st.sessions);
            && oldest.Some?
            && multiset(SwapRemove(st.sessions, oldest.value)) <= multiset(st.sessions)
            && Count(Pending, SwapRemove(st.sessions, oldest.value)) < cfg.maxPending
  {
    CountZeroIff(Pending, st.sessions);
    var i := OldestPending(st.sessions).value;
    SwapRemoveIsRemoval(st.sessions, i);
    CountSwapRemove(Pending, st.sessions, i);
  }

  /** Good reads neither the flags nor the phases. */
  lemma FlagsKeepGood(cfg: Config, st: State, st': State)
    requires Good(cfg, st) && Shape(st')
    requires st'.sessions == st.sessions && st'.log == st.log && st'.updates == st.updates
    requires st'.nextSerial == st.nextSerial && st'.now == st.now && st'.taken == st.taken
    ensures Good(cfg, st')
  {
    RemovalKeepsCore(cfg, st, st');
  }

  /** Making room keeps the limits that were just checked. */
  lemma RoomyKeepsGood(cfg: Config, st: State, room: seq<Session>, ip: Ipv4, peer: Peer)
    requires Good(cfg, st) && multiset(room) <= multiset(st.sessions)
    requires Count(Established, st.sessions) < cfg.maxClients
             && Count(PendingFrom(ip), st.sessions) < MAX_PENDING_PER_IP
    requires forall s :: s in st.sessions ==> s.peer != peer
    ensures Good(cfg, WithSessions(st, room))
    ensures Count(Established, room) < cfg.maxClients && Count(PendingFrom(ip), room) < MAX_PENDING_PER_IP
    ensures forall s :: s in room ==> s.peer != peer
  {
    RemovalKeepsCore(cfg, st, WithSessions(st, room));
    CountMonotone(Established, room, st.sessions);
    CountMonotone(PendingFrom(ip), room, st.sessions);
    forall s | s in room ensures s.peer != peer {
      assert s in multiset(st.sessions);
    }
  }

  lemma AdmitIfRoomKeepsGood(cfg: Config, st: State, peer: Peer, ip: Ipv4, acceptorOk: bool)
    requires Good(cfg, st) && PeerIp(peer) == Some(ip)
    requires forall s :: s in st.sessions ==> s.peer != peer
    ensures Good(cfg, AdmitIfRoom(cfg, st, peer, ip, acceptorOk).state)
  {
    hide SessionOk, LogOk, Distinct, Count, OldestPending, Addresses;
    if Count(Established, st.sessions) < cfg.maxClients && Count(PendingFrom(ip), st.sessions) < MAX_PENDING_PER_IP {
      var room := st.sessions;
      if Count(Pending, st.sessions) >= cfg.maxPending {
        RoomForOne(cfg, st);
        room := SwapRemove(st.sessions, OldestPending(st.sessions).value);
      }
      var roomy := WithSessions(st, room);
      RoomyKeepsGood(cfg, st, room, ip, peer);
      if acceptorOk {
        AdmitKeepsGood(cfg, roomy, peer);
      } else {
        FlagsKeepGood(cfg, roomy, roomy.(stopped := true));
      }
    }
  }

  lemma BanSweepKeepsGood(cfg: Config, st: State, ip: Ipv4)
    requires Good(cfg, st)
    ensures Good(cfg, WithSessions(st, Filter(NotPendingFrom(ip), st.sessions)))
  {
    FilterIsRemoval(NotPendingFrom(ip), st.sessions);
    RemovalKeepsCore(cfg, st, WithSessions(st, Filter(NotPendingFrom(ip), st.sessions)));
  }

  lemma LocateKeepsGood(cfg: Config, st: State, peer: Peer, a: Admission)
    requires Good(cfg, st)
    ensures Good(cfg, Locate(cfg, st, peer, a).state)
  {
    var located := Locate(cfg, st, peer, a);
    if located.state == st {
      return;
    }
    var ip := PeerIp(peer).value;
    if a.accept.AcceptError? {
      FlagsKeepGood(cfg, st, located.state);
    } else if a.decision.BannedNow? {
      BanSweepKeepsGood(cfg, st, ip);
    } else {
      AdmitIfRoomKeepsGood(cfg, st, peer, ip, a.acceptorOk);
    }
  }

  lemma ArriveKeepsGood(cfg: Config, st: State, i: nat, bytes: Bytes, result: InjectResult)
    requires Good(cfg, st) && i < |st.sessions|
    ensures Good(cfg, ArriveAt(st, i, bytes, result))
  {
    var s := st.sessions[i];
    ArriveOrdered(s.inbound, bytes, result);
    InjectKeepsDrain(s.inbound, bytes, result);
    assert st.log + [] == st.log;
    UpdateKeepsGood(cfg, st, i, s.(inbound := Arrive(s.inbound, bytes, result)), [], ArriveAt(st, i, bytes, result));
  }

  lemma DropKeepsGood(cfg: Config, st: State, i: nat)
    requires Good(cfg, st) && i < |st.sessions|
    ensures Good(cfg, WithSessions(st, SwapRemove(st.sessions, i)))
  {
    SwapRemoveIsRemoval(st.sessions, i);
    RemovalKeepsCore(cfg, st, WithSessions(st, SwapRemove(st.sessions, i)));
  }

  // ----- A handshake completes -----

  lemma EstablishSession(cfg: Config, st: State, i: nat, h: HandshakeResult)
    requires Good(cfg, st) && i < |st.sessions| && !st.sessions[i].established
    requires CertificateAccepted(cfg, Current(st).bindings, st.sessions[i].peer, h)
    requires Lookup(Current(st).bindings, h.first) == Some(h.fingerprint)
    ensures var st' := Establish(st, i, h);
            && LogOk(cfg, st'.updates, st'.nextSerial, st'.log)
            && SessionOk(st', st'.sessions[i])
  {
    hide Bounded, Distinct, Ordered, DrainOk;
    var st' := Establish(st, i, h);
    var e := st'.log[|st.log|];
    assert st'.log == st.log + [e];
    LogPush(cfg, st.updates, st.nextSerial, st.log, e);
    assert e in st'.log;
  }

  lemma EstablishBounds(cfg: Config, list: seq<Session>, i: nat, s: Session)
    requires Bounded(cfg, list) && i < |list| && !list[i].established && s.established && s.peer == list[i].peer
    ensures Bounded(cfg, list[i := s])
    ensures Addresses(list[i := s]) == Addresses(list) + {s.address}
  {
    CountUpdate(Pending, list, i, s);
    forall ip ensures Count(PendingFrom(ip), list[i := s]) <= MAX_PENDING_PER_IP {
      CountUpdate(PendingFrom(ip), list, i, s);
    }
    assert list[i := s][i] == s;
    forall t | t in list && t.established ensures t in list[i := s] {
      var j :| 0 <= j < |list| && list[j] == t;
      assert list[i := s][j] == t;
    }
  }

  lemma EstablishOthers(cfg: Config, st: State, i: nat, h: HandshakeResult, j: nat)
    requires Good(cfg, st) && i < |st.sessions| && j < |st.sessions| && i != j && h.Complete?
    ensures SessionOk(Establish(st, i, h), st.sessions[j])
  {
    var st' := Establish(st, i, h);
    var e := st'.log[|st.log|];
    assert st'.log == st.log + [e];
    assert SessionOk(st, st.sessions[j]);
    HistoryFrame(st.updates, st.log, [e], st.sessions[j]);
  }

  lemma EstablishDistinct(list: seq<Session>, i: nat, s: Session)
    requires Distinct(list) && i < |list| && s.serial == list[i].serial && s.peer == list[i].peer
    ensures Distinct(list[i := s])
  {
  }

  lemma EstablishKeepsCore(cfg: Config, st: State, i: nat, h: HandshakeResult)
    requires Good(cfg, st) && i < |st.sessions| && !st.sessions[i].established
    requires CertificateAccepted(cfg, Current(st).bindings, st.sessions[i].peer, h)
    requires Lookup(Current(st).bindings, h.first) == Some(h.fingerprint)
    ensures Core(cfg, Establish(st, i, h))
    ensures Addresses(Establish(st, i, h).sessions) == Addresses(st.sessions) + {h.first}
  {
    var st' := Establish(st, i, h);
    var s := st'.sessions[i];
    EstablishSession(cfg, st, i, h);
    EstablishBounds(cfg, st.sessions, i, s);
    EstablishDistinct(st.sessions, i, s);
    forall j | 0 <= j < |st'.sessions| ensures SessionOk(st', st'.sessions[j]) {
      if j != i {
        EstablishOthers(cfg, st, i, h, j);
      }
    }
  }

  /** The post-handshake check keeps the number of addresses within max_clients. */
  lemma SettleAddresses(cfg: Config, st: State, i: nat, s: Session)
    requires ValidConfig(cfg) && |Addresses(st.sessions)| <= cfg.maxClients
    requires Distinct(st.sessions)
    requires i < |st.sessions| && !st.sessions[i].established && s.established && s.peer == st.sessions[i].peer
    requires Addresses(st.sessions[i := s]) == Addresses(st.sessions) + {s.address}
    ensures (Count(Established, st.sessions) < cfg.maxClients
             || Count(DuplicateOf(s.address, s.peer), st.sessions[i := s]) > 0)
            ==> |Addresses(st.sessions[i := s])| <= cfg.maxClients
    ensures Addresses(SwapRemove(st.sessions[i := s], i)) <= Addresses(st.sessions)
  {
    hide Count, Distinct;
    AddressesAtMostEstablished(st.sessions);
    var list := st.sessions[i := s];
    CountZeroIff(DuplicateOf(s.address, s.peer), list);
    if exists t :: t in list && Matches(DuplicateOf(s.address, s.peer), t) {
      var t :| t in list && Matches(DuplicateOf(s.address, s.peer), t);
      assert t in st.sessions;
      assert s.address in Addresses(st.sessions);
      assert Addresses(list) == Addresses(st.sessions);
    }
    forall t | t in SwapRemove(list, i) ensures t in st.sessions {
    }
  }

  lemma SettleKeepsGood(cfg: Config, st: State, i: nat, h: HandshakeResult,
                        after: seq<Session>, st': State)
    requires Good(cfg, st) && i < |st.sessions| && !st.sessions[i].established
    requires CertificateAccepted(cfg, Current(st).bindings, st.sessions[i].peer, h)
    requires Lookup(Current(st).bindings, h.first) == Some(h.fingerprint)
    requires SettleConnected(cfg, Count(Established, st.sessions), Establish(st, i, h), i,
                             after, st')
    ensures Good(cfg, st')
  {
    var mid := Establish(st, i, h);
    var s := mid.sessions[i];
    EstablishKeepsCore(cfg, st, i, h);
    SettleAddresses(cfg, st, i, s);
    SwapRemoveIsRemoval(mid.sessions, i);
    FilterIsRemoval(NotDuplicateOf(s.address, s.peer), mid.sessions);
    RemovalKeepsCore(cfg, mid, st');
    CardinalityMonotone(Addresses(st'.sessions), Addresses(mid.sessions));
    if Count(Established, st.sessions) >= cfg.maxClients && Count(DuplicateOf(s.address, s.peer), mid.sessions) == 0 {
      CardinalityMonotone(Addresses(st'.sessions), Addresses(st.sessions));
    }
  }

  lemma HandshakeKeepsGood(cfg: Config, st: State, i: nat, h: HandshakeResult, after: seq<Session>, st': State)
    requires Good(cfg, st) && i < |st.sessions| && FirstBinding(Current(st).bindings, h)
    requires HandshakeStep(cfg, st, i, h, after, st')
    ensures Good(cfg, st')
  {
    if st.sessions[i].established {
    } else if h.Incomplete? {
      assert st.log + [] == st.log;
      UpdateKeepsGood(cfg, st, i, st'.sessions[i], [], st');
    } else if CertificateAccepted(cfg, Current(st).bindings, st.sessions[i].peer, h) {
      SettleKeepsGood(cfg, st, i, h, after, st');
    } else {
      DropKeepsGood(cfg, st, i);
    }
  }

  lemma ArrivedKeepsGood(cfg: Config, located: Located, bytes: Bytes, inject: InjectResult)
    requires located.index.Some? ==> located.index.value < |located.state.sessions|
    requires Good(cfg, located.state)
    ensures Good(cfg, Arrived(located, bytes, inject))
  {
    if located.index.Some? && !located.isNew {
      ArriveKeepsGood(cfg, located.state, located.index.value, bytes, inject);
      FlagsKeepGood(cfg, ArriveAt(located.state, located.index.value, bytes, inject), Arrived(located, bytes, inject));
    } else {
      FlagsKeepGood(cfg, located.state, Arrived(located, bytes, inject));
    }
  }

  lemma LocateFrame(cfg: Config, st: State, peer: Peer, a: Admission)
    ensures var st' := Locate(cfg, st, peer, a).state;
            && st'.updates == st.updates && st'.taken == st.taken && st'.sent == st.sent
            && st'.control == st.control && st'.now == st.now && st'.phase == st.phase && st'.log == st.log
  {
  }

  lemma ReceiveKeepsGood(cfg: Config, st: State, d: Datagram, a: Admission, inject: InjectResult,
                         h: HandshakeResult, after: seq<Session>, st': State)
    requires Good(cfg, st) && ReceiveStep(cfg, st, d, a, inject, h, after, st')
    ensures Good(cfg, st')
  {
    var located := Locate(cfg, st, d.peer, a);
    LocateKeepsGood(cfg, st, d.peer, a);
    LocateFrame(cfg, st, d.peer, a);
    ArrivedKeepsGood(cfg, located, d.bytes, inject);
    if located.index.Some? && !InjectRefused(located, inject) {
      HandshakeKeepsGood(cfg, Arrived(located, d.bytes, inject), located.index.value, h, after, st');
    }
  }

  // ----- The other threads -----

  lemma PointwiseKeepsGood(cfg: Config, st: State, st': State)
    requires Good(cfg, st) && Shape(st') && |st'.sessions| == |st.sessions|
    requires forall i :: 0 <= i < |st.sessions| ==> SameBinding(st.sessions[i], st'.sessions[i])
    requires forall i :: 0 <= i < |st.sessions| ==>
                           && st'.sessions[i].authenticated == st.sessions[i].authenticated
                           && st'.sessions[i].loginAttempted == st.sessions[i].loginAttempted
    requires forall i :: 0 <= i < |st.sessions| ==> RecordOk(st.now, st'.sessions[i])
    requires st'.nextSerial == st.nextSerial && st'.now == st.now && st'.updates == st.updates
    requires st'.taken == st.taken && st'.log == st.log
    ensures Good(cfg, st')
  {
    PointwiseKeepsTable(cfg, st.sessions, st'.sessions);
    forall i | 0 <= i < |st'.sessions| ensures SessionOk(st', st'.sessions[i]) {
      assert SessionOk(st, st.sessions[i]);
    }
  }

  lemma AdvanceKeepsGood(cfg: Config, st: State, to: Instant)
    requires Good(cfg, st) && st.now <= to
    ensures Good(cfg, st.(now := to))
  {
    forall i | 0 <= i < |st.sessions| ensures SessionOk(st.(now := to), st.sessions[i]) {
      assert SessionOk(st, st.sessions[i]);
    }
  }

  lemma TakeKeepsGood(cfg: Config, st: State)
    requires Good(cfg, st) && st.taken + 1 < st.sent
    ensures Good(cfg, st.(taken := st.taken + 1))
  {
    var st' := st.(taken := st.taken + 1);
    forall i | 0 <= i < |st.sessions| ensures SessionOk(st', st.sessions[i]) {
      assert SessionOk(st, st.sessions[i]);
    }
  }

  lemma {:induction false} KeepLastIsRemoval(list: seq<Session>)
    ensures multiset(KeepLast(list)) <= multiset(list)
  {
    if list != [] {
      KeepLastIsRemoval(list[1..]);
      assert list == [list[0]] + list[1..];
    }
  }

  lemma FlushedRecord(now: Instant, s: Session, o: FlushOracle)
    requires RecordOk(now, s)
    ensures RecordOk(now, FlushOne(s, o, now))
  {
  }

  lemma QueuedRecord(now: Instant, s: Session, packet: Bytes)
    requires RecordOk(now, s)
    ensures RecordOk(now, QueuePlain(s, packet))
  {
  }

  lemma FlushKeepsGood(cfg: Config, st: State, o: FlushOracle)
    requires Good(cfg, st)
    ensures Good(cfg, st.(sessions := FlushAll(st.sessions, o, st.now)))
  {
    var st' := st.(sessions := FlushAll(st.sessions, o, st.now));
    forall i | 0 <= i < |st.sessions| ensures RecordOk(st.now, st'.sessions[i]) {
      assert SessionOk(st, st.sessions[i]);
      FlushedRecord(st.now, st.sessions[i], o);
    }
    PointwiseKeepsGood(cfg, st, st');
  }

  // ----- Routing -----

  /** The routing policy lets `packet` go to the session. */
  ghost predicate RouteAllowed(cfg: Config, s: Session, packet: Bytes) {
    && PacketAddresses(packet).Some?
    && var destination := PacketAddresses(packet).value.1;
       var broadcast := IsBroadcast(destination, cfg.policy.network, cfg.policy.prefix);
       if broadcast || IsMulticast(destination) then DestinationPermitted(cfg.policy, destination)
       else destination == s.address
  }

  lemma RouteJustified(cfg: Config, updates: seq<Update>, log: seq<Event>, tail: seq<Event>, s: Session, packet: Bytes)
    requires s.authenticated && s.established && s.fingerprint.Some? && s.boundUnder < |updates|
    requires HistoryOk(updates, log, s) && RouteAllowed(cfg, s, packet)
    ensures Justified(cfg, updates, log + tail, Routed(s.serial, packet))
  {
    var c := ConnectionOf(updates, log, s);
    if c.loginRequired { LoggedInGrows(log, tail, s.serial); }
    assert ExpectedRoute(cfg, log + tail, Routed(s.serial, packet), c);
  }

  lemma RoutedToLast(list: seq<Session>, packet: Bytes, log: seq<Event>)
    requires list != []
    ensures var s := list[|list| - 1];
            var before := log + RoutedTo(list[..|list| - 1], packet);
            log + RoutedTo(list, packet) == if s.authenticated then before + [Routed(s.serial, packet)] else before
  {
  }

  lemma {:induction false} RoutedToJustified(cfg: Config, st: State, list: seq<Session>, packet: Bytes)
    requires LogOk(cfg, st.updates, st.nextSerial, st.log)
    requires forall s :: s in list ==> SessionOk(st, s) && RouteAllowed(cfg, s, packet)
    ensures LogOk(cfg, st.updates, st.nextSerial, st.log + RoutedTo(list, packet))
  {
    if list == [] {
      assert st.log + RoutedTo(list, packet) == st.log;
    } else {
      var s := list[|list| - 1];
      var before := RoutedTo(list[..|list| - 1], packet);
      RoutedToJustified(cfg, st, list[..|list| - 1], packet);
      RoutedToLast(list, packet, st.log);
      if s.authenticated {
        assert s in list;
        RouteJustified(cfg, st.updates, st.log, before, s, packet);
        LogPush(cfg, st.updates, st.nextSerial, st.log + before, Routed(s.serial, packet));
      }
    }
  }

  lemma {:induction false} RoutedToRoutes(list: seq<Session>, packet: Bytes)
    ensures forall e :: e in RoutedTo(list, packet) ==>
            e.Routed? && exists s :: s in list && s.authenticated && s.serial == e.serial
  {
    if list != [] {
      RoutedToRoutes(list[..|list| - 1], packet);
      assert list == list[..|list| - 1] + [list[|list| - 1]];
    }
  }

  /** Appending routing events for authenticated sessions keeps every session's history. */
  lemma RoutedKeepsGood(cfg: Config, st: State, events: seq<Event>)
    requires Good(cfg, st) && LogOk(cfg, st.updates, st.nextSerial, st.log + events)
    requires forall e :: e in events ==>
             e.Routed? && exists s :: s in st.sessions && s.authenticated && s.serial == e.serial
    ensures Good(cfg, st.(log := st.log + events))
  {
    var st' := st.(log := st.log + events);
    forall i | 0 <= i < |st.sessions| ensures SessionOk(st', st.sessions[i]) {
      assert SessionOk(st, st.sessions[i]);
      forall e | e in events && e.serial == st.sessions[i].serial ensures st.sessions[i].established {
        var s :| s in st.sessions && s.authenticated && s.serial == e.serial;
        var j :| 0 <= j < |st.sessions| && st.sessions[j] == s;
        assert SessionOk(st, st.sessions[j]);
      }
      HistoryFrame(st.updates, st.log, events, st.sessions[i]);
    }
  }

  lemma BroadcastKeepsGood(cfg: Config, st: State, packet: Bytes, o: FlushOracle)
    requires Good(cfg, st)
    requires forall i :: 0 <= i < |st.sessions| ==> RouteAllowed(cfg, st.sessions[i], packet)
    ensures Good(cfg, st.(sessions := FlushAll(QueueAuthenticated(st.sessions, packet), o, st.now),
                          log := st.log + RoutedTo(st.sessions, packet)))
  {
    var logged := st.(log := st.log + RoutedTo(st.sessions, packet));
    forall s | s in st.sessions ensures SessionOk(st, s) && RouteAllowed(cfg, s, packet) {
      var i :| 0 <= i < |st.sessions| && st.sessions[i] == s;
    }
    RoutedToJustified(cfg, st, st.sessions, packet);
    RoutedToRoutes(st.sessions, packet);
    RoutedKeepsGood(cfg, st, RoutedTo(st.sessions, packet));
    QueuedKeepsGood(cfg, logged, packet);
    FlushKeepsGood(cfg, logged.(sessions := QueueAuthenticated(st.sessions, packet)), o);
  }

  lemma QueuedKeepsGood(cfg: Config, st: State, packet: Bytes)
    requires Good(cfg, st)
    ensures Good(cfg, st.(sessions := QueueAuthenticated(st.sessions, packet)))
  {
    var st' := st.(sessions := QueueAuthenticated(st.sessions, packet));
    forall i | 0 <= i < |st.sessions| ensures RecordOk(st.now, st'.sessions[i]) {
      assert SessionOk(st, st.sessions[i]);
      QueuedRecord(st.now, st.sessions[i], packet);
    }
    PointwiseKeepsGood(cfg, st, st');
  }

  lemma UnicastKeepsGood(cfg: Config, st: State, i: nat, packet: Bytes, o: FlushOracle)
    requires Good(cfg, st) && i < |st.sessions| && st.sessions[i].authenticated
             && RouteAllowed(cfg, st.sessions[i], packet)
    ensures Good(cfg, st.(sessions := st.sessions[i := FlushOne(QueuePlain(st.sessions[i], packet), o, st.now)],
                          log := st.log + [Routed(st.sessions[i].serial, packet)]))
  {
    var s := st.sessions[i];
    var e := Routed(s.serial, packet);
    var s' := FlushOne(QueuePlain(s, packet), o, st.now);
    assert SessionOk(st, s);
    assert st.log + [] == st.log;
    RouteJustified(cfg, st.updates, st.log, [], s, packet);
    LogPush(cfg, st.updates, st.nextSerial, st.log, e);
    QueuedRecord(st.now, s, packet);
    FlushedRecord(st.now, QueuePlain(s, packet), o);
    HistoryFrame(st.updates, st.log, [e], s);
    UpdateKeepsGood(cfg, st, i, s', [e], st.(sessions := st.sessions[i := s'], log := st.log + [e]));
  }

  /** Routing changes nothing of a session but its plaintext queue and its activity time. */
  predicate OnlyQueued(now: Instant, s: Session, t: Session) {
    && t == s.(rawTx := t.rawTx, lastActivity := t.lastActivity)
    && (t.lastActivity == s.lastActivity || t.lastActivity == now)
  }

  ghost predicate AllOnlyQueued(st: State, st': State) {
    && |st'.sessions| == |st.sessions|
    && forall i :: 0 <= i < |st.sessions| ==> OnlyQueued(st.now, st.sessions[i], st'.sessions[i])
  }

  lemma QueueShape(now: Instant, s: Session, packet: Bytes, o: FlushOracle)
    ensures OnlyQueued(now, s, FlushOne(s, o, now)) && OnlyQueued(now, s, FlushOne(QueuePlain(s, packet), o, now))
  {
  }

  lemma RouteToAllShape(st: State, packet: Bytes, o: FlushOracle)
    ensures AllOnlyQueued(st, RouteToAll(st, packet, o))
  {
    forall i | 0 <= i < |st.sessions|
      ensures OnlyQueued(st.now, st.sessions[i], RouteToAll(st, packet, o).sessions[i])
    {
      QueueShape(st.now, st.sessions[i], packet, o);
    }
  }

  lemma RouteToOneShape(st: State, destination: Ipv4, packet: Bytes, o: FlushOracle)
    ensures AllOnlyQueued(st, RouteToOne(st, destination, packet, o))
  {
    var at := PickReceiver(st.sessions, destination);
    if at.Some? {
      QueueShape(st.now, st.sessions[at.value], packet, o);
    }
  }

  lemma RouteShape(cfg: Config, st: State, packet: Bytes, o: FlushOracle)
    ensures AllOnlyQueued(st, Route(cfg, st, packet, o))
  {
    if PacketAddresses(packet).Some? {
      RouteToAllShape(st, packet, o);
      RouteToOneShape(st, PacketAddresses(packet).value.1, packet, o);
    }
  }

  lemma RouteKeepsGood(cfg: Config, st: State, packet: Bytes, o: FlushOracle)
    requires Good(cfg, st)
    ensures Good(cfg, Route(cfg, st, packet, o))
  {
    hide Good, IsBroadcast, IsMulticast, PacketAddresses, PickReceiver, RoutedTo;
    if PacketAddresses(packet).Some? {
      var destination := PacketAddresses(packet).value.1;
      if IsBroadcast(destination, cfg.policy.network, cfg.policy.prefix) || IsMulticast(destination) {
        if DestinationPermitted(cfg.policy, destination) {
          assert forall s :: RouteAllowed(cfg, s, packet);
          BroadcastKeepsGood(cfg, st, packet, o);
        }
      } else if PickReceiver(st.sessions, destination).Some? {
        UnicastKeepsGood(cfg, st, PickReceiver(st.sessions, destination).value, packet, o);
      }
    }
  }

  // ----- Control -----

  /** The sessions that outlive the retransmission loop, before their deadlines move. */
  function Retransmitted(list: seq<Session>, o: map<nat, RetransmitResult>, now: Instant): seq<Session> {
    if list == [] then []
    else
      Retransmitted(list[..|list| - 1], o, now)
      + if RetransmitOne(list[|list| - 1], o, now).Some? then [list[|list| - 1]] else []
  }

  lemma {:induction false} RetransmittedIsRemoval(list: seq<Session>, o: map<nat, RetransmitResult>, now: Instant)
    ensures multiset(Retransmitted(list, o, now)) <= multiset(list)
  {
    if list != [] {
      RetransmittedIsRemoval(list[..|list| - 1], o, now);
      assert list == list[..|list| - 1] + [list[|list| - 1]];
    }
  }

  lemma {:induction false} RetransmitShape(list: seq<Session>, o: map<nat, RetransmitResult>, now: Instant)
    ensures |RetransmitAll(list, o, now)| == |Retransmitted(list, o, now)|
    ensures forall i :: 0 <= i < |RetransmitAll(list, o, now)| ==>
                          RetransmitOne(Retransmitted(list, o, now)[i], o, now) == Some(RetransmitAll(list, o, now)[i])
  {
    if list != [] {
      RetransmitShape(list[..|list| - 1], o, now);
    }
  }

  lemma RetransmitRecord(now: Instant, s: Session, o: map<nat, RetransmitResult>)
    requires RecordOk(now, s) && RetransmitOne(s, o, now).Some?
    ensures var r := RetransmitOne(s, o, now).value;
            RecordOk(now, r) && SameBinding(s, r) && r.authenticated == s.authenticated
              && r.loginAttempted == s.loginAttempted
  {
  }

  lemma RetransmitKeepsGood(cfg: Config, st: State, o: map<nat, RetransmitResult>)
    requires Good(cfg, st)
    ensures Good(cfg, st.(sessions := RetransmitAll(st.sessions, o, st.now)))
  {
    var kept := Retransmitted(st.sessions, o, st.now);
    var list := RetransmitAll(st.sessions, o, st.now);
    RetransmittedIsRemoval(st.sessions, o, st.now);
    RetransmitShape(st.sessions, o, st.now);
    RemovalKeepsCore(cfg, st, st.(sessions := kept));
    RetransmitPointwise(cfg, st.(sessions := kept), list, o);
  }

  lemma RetransmitPointwise(cfg: Config, st: State, list: seq<Session>, o: map<nat, RetransmitResult>)
    requires Good(cfg, st) && |list| == |st.sessions|
    requires forall i :: 0 <= i < |list| ==> RetransmitOne(st.sessions[i], o, st.now) == Some(list[i])
    ensures Good(cfg, st.(sessions := list))
  {
    forall i | 0 <= i < |list|
      ensures && RecordOk(st.now, list[i]) && SameBinding(st.sessions[i], list[i])
              && list[i].authenticated == st.sessions[i].authenticated
              && list[i].loginAttempted == st.sessions[i].loginAttempted
    {
      assert SessionOk(st, st.sessions[i]);
      RetransmitRecord(st.now, st.sessions[i], o);
    }
    PointwiseKeepsGood(cfg, st, st.(sessions := list));
  }

  lemma {:induction false} DisconnectIsRemoval(list: seq<Session>, addresses: seq<Ipv4>)
    ensures multiset(DisconnectAll(list, addresses)) <= multiset(list)
    decreases |addresses|
  {
    if addresses != [] {
      FilterIsRemoval(NotConnectedAt(addresses[0]), list);
      DisconnectIsRemoval(Filter(NotConnectedAt(addresses[0]), list), addresses[1..]);
    }
  }

  lemma TickKeepsGood(cfg: Config, st: State, disconnects: seq<Ipv4>, o: map<nat, RetransmitResult>,
                      mid: seq<Session>, st': State)
    requires Good(cfg, st) && TickStep(cfg, st, disconnects, o, mid, st')
    ensures Good(cfg, st')
  {
    var left := st.(sessions := DisconnectAll(st.sessions, disconnects));
    DisconnectIsRemoval(st.sessions, disconnects);
    RemovalKeepsCore(cfg, st, left);
    RetransmitKeepsGood(cfg, left, o);
    FilterIsRemoval(Unexpired(st.now, cfg.maxLifetime), mid);
    RemovalKeepsCore(cfg, left.(sessions := RetransmitAll(left.sessions, o, st.now)), st');
  }

  lemma JustifiedGrows(cfg: Config, updates: seq<Update>, more: seq<Update>, before: seq<Event>, e: Event)
    requires Justified(cfg, updates, before, e)
    ensures Justified(cfg, updates + more, before, e)
  {
    if e.LoginFrame? {
      var c :| ExpectedLogin(updates, before, e, c);
      assert ExpectedLogin(updates + more, before, e, c);
    }
  }

  lemma LogGrows(cfg: Config, updates: seq<Update>, more: seq<Update>, nextSerial: nat, log: seq<Event>)
    requires LogOk(cfg, updates, nextSerial, log)
    ensures LogOk(cfg, updates + more, nextSerial, log)
  {
    forall k | 0 <= k < |log| ensures Justified(cfg, updates + more, log[..k], log[k]) {
      JustifiedGrows(cfg, updates, more, log[..k], log[k]);
    }
  }

  lemma RetainedSession(st: State, update: Update, s: Session)
    requires Shape(st) && SessionOk(st, s)
    requires Matches(Authorised(update, st.updates[|st.updates| - 1].logins), s)
    ensures SessionOk(RetainBy(st, update), s)
  {
    var updates := st.updates + [update];
    forall v | s.retainedAfter < v < |updates|
      ensures Lookup(updates[v].bindings, s.address) == s.fingerprint
      ensures Lookup(updates[v - 1].logins, s.address) == Lookup(updates[v].logins, s.address)
    {
    }
  }

  lemma RetainKeepsGood(cfg: Config, st: State, update: Update)
    requires Good(cfg, st) && st.control.Ticking?
    ensures Good(cfg, RetainBy(st, update))
  {
    hide RecordOk, HistoryOk, Justified, Bounded, Matches, Filter, Distinct;
    var q := Authorised(update, st.updates[|st.updates| - 1].logins);
    var kept := WithSessions(st, Filter(q, st.sessions));
    var st' := RetainBy(st, update);
    FilterIsRemoval(q, st.sessions);
    RemovalKeepsCore(cfg, st, kept);
    LogGrows(cfg, st.updates, [update], st.nextSerial, st.log);
    forall i | 0 <= i < |st'.sessions| ensures SessionOk(st', st'.sessions[i]) {
      assert SessionOk(kept, st'.sessions[i]);
      assert st'.sessions[i] in Filter(q, st.sessions);
      RetainedSession(st, update, st'.sessions[i]);
    }
  }

  // ----- Every step, every run -----

  lemma DecryptKeepsGood(cfg: Config, st: State, step: Step, st': State)
    requires Good(cfg, st) && Next(cfg, st, step, st')
    requires step.Drain? || step.Dedupe? || step.TakeUpdate? || step.NoDatagram? || step.Receive?
    ensures Good(cfg, st')
  {
    match step {
      case Drain(oracles) =>
        DrainKeepsGood(cfg, st, 0, oracles);
        FlagsKeepGood(cfg, DrainFrom(cfg, st, 0, oracles), st');
      case Dedupe =>
        KeepLastIsRemoval(st.sessions);
        RemovalKeepsCore(cfg, st, st');
      case TakeUpdate => TakeKeepsGood(cfg, st);
      case NoDatagram => FlagsKeepGood(cfg, st, st');
      case Receive(d, a, inject, h, after) => ReceiveKeepsGood(cfg, st, d, a, inject, h, after, st');
    }
  }

  lemma OthersKeepGood(cfg: Config, st: State, step: Step, st': State)
    requires Good(cfg, st) && Next(cfg, st, step, st')
    requires step.Advance? || step.RoutePacket? || step.FlushSessions? || step.UdpRemove?
    ensures Good(cfg, st')
  {
    hide ReceiveStep, TickStep, RetainBy, Route, DrainFrom, KeepLast, NextWake, Bounded, SessionOk, Justified;
    match step {
      case Advance(to) => AdvanceKeepsGood(cfg, st, to);
      case RoutePacket(packet, flush) => RouteKeepsGood(cfg, st, packet, flush);
      case FlushSessions(flush) => FlushKeepsGood(cfg, st, flush);
      case UdpRemove(failed, after) =>
        FilterIsRemoval(SerialOutside(failed), st.sessions);
        RemovalKeepsCore(cfg, st, st');
    }
  }

  lemma ControlKeepsGood(cfg: Config, st: State, step: Step, st': State)
    requires Good(cfg, st) && Next(cfg, st, step, st')
    requires step.ControlTick? || step.Retain? || step.SendUpdate? || step.Block? || step.Unblock?
    ensures Good(cfg, st')
  {
    hide Core, ReceiveStep, TickStep, RetainBy, Route, DrainFrom, FlushAll, KeepLast, NextWake;
    match step {
      case ControlTick(disconnects, retransmit, mid) => TickKeepsGood(cfg, st, disconnects, retransmit, mid, st');
      case Retain(update) => RetainKeepsGood(cfg, st, update);
      case _ => FlagsKeepGood(cfg, st, st');
    }
  }

  lemma NextKeepsGood(cfg: Config, st: State, step: Step, st': State)
    requires Good(cfg, st) && Next(cfg, st, step, st')
    ensures Good(cfg, st')
  {
    if step.Drain? || step.Dedupe? || step.TakeUpdate? || step.NoDatagram? || step.Receive? {
      DecryptKeepsGood(cfg, st, step, st');
    } else if step.Advance? || step.RoutePacket? || step.FlushSessions? || step.UdpRemove? {
      OthersKeepGood(cfg, st, step, st');
    } else {
      ControlKeepsGood(cfg, st, step, st');
    }
  }

  lemma InitialIsGood(cfg: Config, update: Update, st: State)
    requires ValidConfig(cfg) && Initial(st, update)
    ensures Good(cfg, st)
  {
    assert Addresses([]) == {};
  }

  lemma {:induction false} RunsAreGood(cfg: Config, update: Update, states: seq<State>, steps: seq<Step>, k: nat)
    requires IsRun(cfg, update, states, steps) && k < |states|
    ensures Good(cfg, states[k])
  {
    if k == 0 {
      InitialIsGood(cfg, update, states[0]);
    } else {
      RunsAreGood(cfg, update, states, steps, k - 1);
      NextKeepsGood(cfg, states[k - 1], steps[k - 1], states[k]);
    }
  }
}
