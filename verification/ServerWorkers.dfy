/** The worker threads' critical sections on the shared table, as they run: loops over a Vec
    with swap_remove and retain, fields updated in place.  Each method is proved to take
    exactly the corresponding step of ServerMachine. */
module ServerWorkers {
  import opened Net
  import opened InboundOrder
  import opened Login
  import opened SessionTable
  import opened Cidr
  import opened ServerMachine
  import DrainQueues

  // ----- Permutation laws of the loops -----

  lemma {:induction false} FilterAppend(q: Query, a: seq<Session>, b: seq<Session>)
    ensures Filter(q, a + b) == Filter(q, a) + Filter(q, b)
  {
    hide Matches;
    if b == [] {
      assert a + b == a;
    } else {
      var n := |b| - 1;
      FilterAppend(q, a, b[..n]);
      assert (a + b)[..|a + b| - 1] == a + b[..n];
    }
  }

  lemma {:induction false} FilterOne(q: Query, s: Session)
    ensures Filter(q, [s]) == if Matches(q, s) then [s] else []
  {
    assert [s][..0] == [];
    assert Filter(q, [s][..0]) == [];
  }

  /** The list cut at i, and at its end: what swap_remove rearranges. */
  lemma {:induction false} SwapRemoveParts<T>(list: seq<T>, i: nat)
    requires i < |list| - 1
    ensures var n := |list| - 1;
            && list == list[..i] + [list[i]] + (list[i + 1..n] + [list[n]])
            && SwapRemove(list, i) == list[..i] + ([list[n]] + list[i + 1..n])
  {
  }

  /** Filtering commutes with taking one element out. */
  lemma {:induction false} FilterSwapRemove(q: Query, list: seq<Session>, i: nat)
    requires i < |list|
    ensures multiset(Filter(q, list)) == multiset(Filter(q, SwapRemove(list, i))) + multiset(Filter(q, [list[i]]))
  {
    hide Matches, Filter;
    var n := |list| - 1;
    if i == n {
      assert list == list[..n] + [list[n]];
      FilterAppend(q, list[..n], [list[n]]);
    } else {
      var front, middle, last := list[..i], list[i + 1..n], [list[n]];
      SwapRemoveParts(list, i);
      FilterAppend(q, front + [list[i]], middle + last);
      FilterAppend(q, front, [list[i]]);
      FilterAppend(q, middle, last);
      FilterAppend(q, front, last + middle);
      FilterAppend(q, last, middle);
    }
  }

  lemma {:induction false} FilterAll(q: Query, list: seq<Session>)
    requires forall s :: s in list ==> Matches(q, s)
    ensures Filter(q, list) == list
  {
    if list != [] {
      var n := |list| - 1;
      assert list == list[..n] + [list[n]];
      FilterAll(q, list[..n]);
    }
  }

  function RetransmitOutcome(s: Session, o: map<nat, RetransmitResult>, now: Instant): seq<Session> {
    match RetransmitOne(s, o, now) case None => [] case Some(r) => [r]
  }

  lemma {:induction false} RetransmitPush(list: seq<Session>, s: Session, o: map<nat, RetransmitResult>, now: Instant)
    ensures RetransmitAll(list + [s], o, now)
         == RetransmitAll(list, o, now) + RetransmitOutcome(s, o, now)
  {
    assert (list + [s])[..|list|] == list;
  }

  lemma {:induction false} RetransmitAppend(a: seq<Session>, b: seq<Session>, o: map<nat, RetransmitResult>,
                                            now: Instant)
    ensures RetransmitAll(a + b, o, now) == RetransmitAll(a, o, now) + RetransmitAll(b, o, now)
  {
    hide RetransmitOne, RetransmitOutcome;
    if b == [] {
      assert a + b == a;
    } else {
      hide RetransmitAll;
      var n := |b| - 1;
      RetransmitAppend(a, b[..n], o, now);
      assert a + b == (a + b[..n]) + [b[n]];
      RetransmitPush(a + b[..n], b[n], o, now);
      RetransmitPush(b[..n], b[n], o, now);
      assert b == b[..n] + [b[n]];
    }
  }

  lemma {:induction false} RetransmitHead(s: Session, rest: seq<Session>, o: map<nat, RetransmitResult>, now: Instant)
    ensures RetransmitAll([s] + rest, o, now) == RetransmitOutcome(s, o, now) + RetransmitAll(rest, o, now)
    ensures RetransmitAll([], o, now) == []
  {
    RetransmitAppend([s], rest, o, now);
    RetransmitPush([], s, o, now);
    assert [] + [s] == [s];
  }

  /** After swap_remove at i, the sessions still to be visited are the old ones but the removed. */
  lemma {:induction false} RetransmitRotated(list: seq<Session>, i: nat, o: map<nat, RetransmitResult>, now: Instant)
    requires i < |list|
    ensures SwapRemove(list, i)[..i] == list[..i]
    ensures multiset(RetransmitAll(SwapRemove(list, i)[i..], o, now)) == multiset(RetransmitAll(list[i + 1..], o, now))
  {
    hide RetransmitAll;
    var n := |list| - 1;
    if i == n {
      assert SwapRemove(list, i)[i..] == [] == list[i + 1..];
    } else {
      var middle := list[i + 1..n];
      assert SwapRemove(list, i)[i..] == [list[n]] + middle;
      assert list[i + 1..] == middle + [list[n]];
      RetransmitAppend([list[n]], middle, o, now);
      RetransmitAppend(middle, [list[n]], o, now);
    }
  }

  /** The loop has dealt with the first i sessions. */
  ghost predicate HalfRetransmitted(list: seq<Session>, i: nat, target: seq<Session>,
                                    o: map<nat, RetransmitResult>, now: Instant)
    requires i <= |list|
  {
    multiset(list[..i]) + multiset(RetransmitAll(list[i..], o, now)) == multiset(target)
  }

  lemma {:induction false} HalfStart(list: seq<Session>, o: map<nat, RetransmitResult>, now: Instant)
    ensures HalfRetransmitted(list, 0, RetransmitAll(list, o, now), o, now)
  {
    assert list[0..] == list;
  }

  lemma {:induction false} HalfEnd(list: seq<Session>, target: seq<Session>, o: map<nat, RetransmitResult>,
                                   now: Instant)
    requires HalfRetransmitted(list, |list|, target, o, now)
    ensures multiset(list) == multiset(target)
  {
    assert list[..|list|] == list;
  }

  lemma {:induction false} HalfKeep(list: seq<Session>, i: nat, target: seq<Session>,
                                    o: map<nat, RetransmitResult>, now: Instant)
    requires i < |list| && HalfRetransmitted(list, i, target, o, now) && RetransmitOne(list[i], o, now).Some?
    ensures HalfRetransmitted(list[i := RetransmitOne(list[i], o, now).value], i + 1, target, o, now)
  {
    hide RetransmitAll, RetransmitOne;
    var s := RetransmitOne(list[i], o, now).value;
    var rest := list[i + 1..];
    assert list[i..] == [list[i]] + rest;
    RetransmitHead(list[i], rest, o, now);
    assert list[i := s][i + 1..] == rest;
    assert list[i := s][..i + 1] == list[..i] + [s];
  }

  lemma {:induction false} HalfRemove(list: seq<Session>, i: nat, target: seq<Session>,
                                      o: map<nat, RetransmitResult>, now: Instant)
    requires i < |list| && HalfRetransmitted(list, i, target, o, now) && RetransmitOne(list[i], o, now).None?
    ensures HalfRetransmitted(SwapRemove(list, i), i, target, o, now)
  {
    hide RetransmitAll, RetransmitOne;
    var rest := list[i + 1..];
    assert list[i..] == [list[i]] + rest;
    RetransmitHead(list[i], rest, o, now);
    RetransmitRotated(list, i, o, now);
  }

  function Reverse(list: seq<Session>): (r: seq<Session>)
    ensures |r| == |list|
  {
    if list == [] then [] else Reverse(list[1..]) + [list[0]]
  }

  lemma {:induction false} ReverseAt(list: seq<Session>, i: nat)
    requires i < |list|
    ensures Reverse(list)[i] == list[|list| - 1 - i]
  {
    if i < |list| - 1 {
      ReverseAt(list[1..], i);
    }
  }

  lemma {:induction false} ReversePush(list: seq<Session>, s: Session)
    ensures Reverse(list + [s]) == [s] + Reverse(list)
  {
    forall i | 0 <= i < |list| + 1 ensures Reverse(list + [s])[i] == ([s] + Reverse(list))[i] {
      ReverseAt(list + [s], i);
      if i > 0 { ReverseAt(list, i - 1); }
    }
  }

  /** A drain of the session's plaintext queue is a visit of the machine: as many packets leave
      it, and the activity time moves when one was sent. */
  lemma {:induction false} DrainIsVisit(s: Session, items: seq<DrainQueues.Stamped>,
                                        probes: nat -> DrainQueues.WriteProbe,
                                        fates: seq<DrainQueues.PacketFate>, rest: seq<DrainQueues.Stamped>,
                                        now: Instant)
    requires DrainQueues.RawDrained(items, probes, fates, rest)
    requires |items| == |s.rawTx| && forall i :: 0 <= i < |items| ==> items[i].bytes == s.rawTx[i]
    ensures var after := FlushOne(s, map[s.serial := Visit(|fates|, DrainQueues.WasSent in fates)], now);
            && |after.rawTx| == |rest| && (forall i :: 0 <= i < |rest| ==> after.rawTx[i] == rest[i].bytes)
            && after.lastActivity == if DrainQueues.WasSent in fates then now else s.lastActivity
  {
    var after := FlushOne(s, map[s.serial := Visit(|fates|, DrainQueues.WasSent in fates)], now);
    assert after.rawTx == s.rawTx[|fates|..];
  }

  /** The addresses of the authenticated sessions met so far. */
  ghost predicate Seen(seen: set<Ipv4>, list: seq<Session>) {
    forall a :: a in seen <==> exists t :: t in list && Matches(ReceiverFor(a), t)
  }

  lemma {:induction false} SeenNothing()
    ensures Seen({}, [])
  {
  }

  lemma {:induction false} ReverseNothing(list: seq<Session>)
    ensures Reverse([]) == [] && KeepLast(list[|list|..]) == []
  {
  }

  lemma {:induction false} KeepLastCons(session: Session, rest: seq<Session>, seen: set<Ipv4>)
    requires Seen(seen, rest)
    ensures var kept := !session.authenticated || session.address !in seen;
            && KeepLast([session] + rest) == (if kept then [session] + KeepLast(rest) else KeepLast(rest))
            && Seen(if kept && session.authenticated then seen + {session.address} else seen, [session] + rest)
  {
    assert ([session] + rest)[1..] == rest;
    if session.authenticated {
      assert Matches(ReceiverFor(session.address), session);
    }
    forall a | exists t :: t in rest && Matches(ReceiverFor(a), t)
      ensures exists t :: t in [session] + rest && Matches(ReceiverFor(a), t)
    {
      var t :| t in rest && Matches(ReceiverFor(a), t);
      assert t in [session] + rest;
    }
  }

  lemma {:induction false} RoutedNothing(packet: Bytes)
    ensures RoutedTo([], packet) == []
  {
  }

  lemma {:induction false} RoutedPush(list: seq<Session>, i: nat, packet: Bytes)
    requires i < |list|
    ensures RoutedTo(list[..i + 1], packet)
         == RoutedTo(list[..i], packet) + if list[i].authenticated then [Routed(list[i].serial, packet)] else []
  {
    assert list[..i + 1][..i] == list[..i];
  }

  /** Behind the highest index still to be removed, every session stays. */
  lemma {:induction false} RemovedLast(remove: seq<nat>, n: nat, size: nat, start: seq<Session>,
                                       list: seq<Session>, q: Query)
    requires 0 < n <= |remove| && |list| == size <= |start|
    requires forall k, l :: 0 <= k < l < |remove| ==> remove[k] < remove[l]
    requires forall j :: 0 <= j < |start| ==> (j in remove <==> !Matches(q, start[j]))
    requires forall j :: 0 <= j < size && (n < |remove| ==> j < remove[n]) ==> list[j] == start[j]
    requires forall j :: 0 <= j < size && n < |remove| && remove[n] <= j ==> Matches(q, list[j])
    ensures forall j :: remove[n - 1] < j < size ==> Matches(q, list[j])
  {
    hide Matches;
    forall j | remove[n - 1] < j < size ensures Matches(q, list[j]) {
      if n == |remove| || j < remove[n] {
        forall k | 0 <= k < |remove| ensures remove[k] != j {
          if k < n - 1 { assert remove[k] < remove[n - 1]; }
          if n < k { assert remove[n] < remove[k]; }
        }
      }
    }
  }

  class Server {
    const cfg: Config
    var sessions: seq<Session>
    var nextSerial: nat
    var now: Instant
    var phase: Phase
    var stopped: bool
    var updates: seq<Update>
    var sent: nat
    var taken: nat
    var control: ControlPhase
    var wakePending: bool
    ghost var log: seq<Event>

    ghost function View(): State
      reads this
    {
      State(sessions, nextSerial, now, phase, stopped, updates, sent, taken, control, wakePending, log)
    }

    constructor (cfg: Config, update: Update, now: Instant)
      ensures this.cfg == cfg && Initial(View(), update)
    {
      this.cfg := cfg;
      this.now := now;
      sessions, nextSerial, phase, stopped := [], 0, Top, false;
      updates, sent, taken := [update], 1, 0;
      control, wakePending, log := Ticking, false, [];
    }

    // ----- Decrypt: drain -----

    /** A record with plaintext: a login, a keepalive or a packet. */
    method HandlePlain(before: Session, packet: Bytes, tunOk: bool) returns (session: Session, retry: bool)
      requires Shape(View()) && !stopped
      modifies this`log, this`wakePending, this`stopped
      ensures var turn := PlainTurn(cfg.policy, taken, updates[taken].logins, now, before, packet, tunOk);
              && session == turn.session && (retry <==> turn.flow.RetryPending?) && log == old(log) + turn.events
              && wakePending == (old(wakePending) || turn.wake) && stopped == turn.flow.StopServer?
    {
      hide PacketAddresses, LoginMatches, DestinationPermitted;
      session, retry := before, true;
      if !session.authenticated {
        retry := false;
        if !session.loginAttempted {
          session := session.(loginAttempted := true);
          var accepted := session.address in updates[taken].logins
                          && LoginMatches(packet, updates[taken].logins[session.address]);
          log := log + [LoginFrame(session.serial, packet, taken, accepted)];
          if accepted {
            session := QueuePlain(session.(authenticated := true, lastActivity := now), AUTH_OK);
            wakePending := true;
          } else {
            session := QueuePlain(session, AUTH_FAILED);
          }
        }
      } else if packet == KEEPALIVE_PACKET {
        retry := false;
        session := QueuePlain(session.(lastActivity := now), KEEPALIVE_PACKET);
      } else {
        var addresses := PacketAddresses(packet);
        if addresses.Some? && addresses.value.0 == session.address
           && DestinationPermitted(cfg.policy, addresses.value.1) {
          log := log + [TunWrite(session.serial, packet)];
          if tunOk {
            session := session.(lastActivity := now);
          } else {
            retry := false;
            stopped := true;
          }
        }
      }
    }

    /** One session's turn: read once, act on the plaintext, retry the waiting datagram. */
    method DrainSession(i: nat, o: DrainOracle)
      requires Shape(View()) && i < |sessions| && NeedsTurn(sessions[i]) && !stopped
      modifies this
      ensures View() == DrainAt(cfg, old(View()), i, o)
    {
      hide PlainTurn, Retry, NeedsTurn;
      // every answer sets the flag
      var drain := o.read.WantWrite? || (o.read.Data? && o.read.packet != []);
      var contacts := sessions[i].inbound.contacts + [Read(o.read)];
      var session := sessions[i].(inbound := sessions[i].inbound.(drainPending := drain, contacts := contacts));
      assert session == sessions[i].(inbound := AfterRead(sessions[i].inbound, o.read));
      var retry := true;
      if o.read.Data? && o.read.packet != [] {
        session, retry := HandlePlain(session, o.read.packet, o.tunOk);
      }
      if retry {
        session := session.(inbound := Retry(session.inbound, o.inject));
      }
      sessions := sessions[i := session];
    }

    method DrainPass(oracles: seq<DrainOracle>)
      requires Shape(View()) && phase.Top? && !stopped && |oracles| == |sessions|
      modifies this
      ensures Next(cfg, old(View()), Drain(oracles), View())
    {
      hide ReceiveStep, TickStep, Route, DrainTurn, RetainBy, FlushAll, KeepLast, NextWake;
      var i := 0;
      while i < |sessions| && !stopped
        invariant Shape(View()) && i <= |sessions| == |oracles|
        invariant phase == old(phase)
        invariant DrainFrom(cfg, View(), i, oracles) == DrainFrom(cfg, old(View()), 0, oracles)
      {
        if sessions[i].established && (sessions[i].inbound.drainPending || sessions[i].inbound.pending != []) {
          DrainSession(i, oracles[i]);
        }
        i := i + 1;
      }
      phase := Drained;
    }

    // ----- Decrypt: dedupe -----

    /** retain over the reversed table: a session whose address was seen before is dropped. */
    method RetainUnseen(ghost list: seq<Session>, reversed: seq<Session>) returns (kept: seq<Session>)
      requires reversed == Reverse(list)
      ensures Reverse(kept) == KeepLast(list)
    {
      hide KeepLast, Seen, Reverse;
      SeenNothing();
      var seen: set<Ipv4> := {};
      kept := [];
      assert Reverse([]) == [] && KeepLast(list[|list|..]) == [] by { ReverseNothing(list); }
      var i := 0;
      assert list[|list| - i..] == [];
      while i < |reversed|
        invariant i <= |reversed|
        invariant Seen(seen, list[|list| - i..])
        invariant Reverse(kept) == KeepLast(list[|list| - i..])
      {
        var session := reversed[i];
        ReverseAt(list, i);
        assert list[|list| - i - 1..] == [session] + list[|list| - i..];
        KeepLastCons(session, list[|list| - i..], seen);
        if !session.authenticated || session.address !in seen {
          ReversePush(kept, session);
          kept := kept + [session];
          if session.authenticated {
            seen := seen + {session.address};
          }
        }
        i := i + 1;
      }
      assert list[0..] == list;
    }

    /** reverse, retain, reverse. */
    method DedupePass()
      requires Shape(View()) && phase.Drained? && !stopped
      modifies this
      ensures Next(cfg, old(View()), Dedupe, View())
    {
      hide ReceiveStep, TickStep, Route, DrainFrom, RetainBy, FlushAll, NextWake, KeepLast;
      var kept := RetainUnseen(sessions, Reverse(sessions));
      kept := Reverse(kept);
      wakePending := wakePending || |kept| < |sessions|;
      sessions := kept;
      phase := Deduped;
    }

    // ----- Decrypt: reload take-up -----

    /** try_recv until the channel is empty: the newest update that was sent wins. */
    method TakeUpdates()
      requires Shape(View()) && phase.Deduped? && !stopped
      modifies this`taken
      ensures Shape(View()) && taken == sent - 1
    {
      while taken + 1 < sent
        invariant taken < sent
      {
        taken := taken + 1;
      }
    }

    // ----- Decrypt: one datagram -----

    method AdmitNew(peer: Peer, a: Admission) returns (at: Option<nat>)
      requires Shape(View()) && PositionOf(peer, sessions).None?
      modifies this`sessions, this`nextSerial, this`stopped, this`wakePending
      ensures Locate(cfg, old(View()), peer, a) == Located(View(), at, at.Some?)
    {
      hide Count, Filter, OldestPending, PositionOf;
      at := None;
      if PeerIp(peer).None? {
        return;
      }
      var ip := PeerIp(peer).value;
      if a.banned || a.accept.NoCookie? {
        return;
      }
      if a.accept.AcceptError? {
        stopped := !a.acceptorOk;
        return;
      }
      match a.decision {
        case Banned => return;
        case BannedNow =>
          var kept := Filter(NotPendingFrom(ip), sessions);
          wakePending := wakePending || |kept| < |sessions|;
          sessions := kept;
          return;
        case Allowed =>
      }
      if Count(Established, sessions) >= cfg.maxClients {
        return;
      }
      if Count(PendingFrom(ip), sessions) >= MAX_PENDING_PER_IP {
        return;
      }
      if Count(Pending, sessions) >= cfg.maxPending {
        var oldest := OldestPending(sessions);
        if oldest.Some? {
          sessions := SwapRemove(sessions, oldest.value);
          wakePending := true;
        }
      }
      if !a.acceptorOk {
        stopped := true;
        return;
      }
      sessions :=
        sessions + [Session(nextSerial, peer, 0, None, false, false, false, None, now, None, EMPTY, [], 0, 0)];
      nextSerial := nextSerial + 1;
      wakePending := true;
      at := Some(|sessions| - 1);
    }

    /** The replacement loop: swap_remove puts the last session at the freed index, which is
        therefore looked at again. */
    method ReplaceDuplicates(address: Ipv4, peer: Peer)
      modifies this`sessions, this`wakePending
      ensures multiset(sessions) == multiset(Filter(NotDuplicateOf(address, peer), old(sessions)))
      ensures wakePending == (old(wakePending) || |sessions| < |old(sessions)|)
    {
      hide Filter;
      var q := NotDuplicateOf(address, peer);
      var i := 0;
      while i < |sessions|
        invariant i <= |sessions| <= |old(sessions)|
        invariant forall j :: 0 <= j < i ==> Matches(q, sessions[j])
        invariant multiset(Filter(q, sessions)) == multiset(Filter(q, old(sessions)))
        invariant wakePending == (old(wakePending) || |sessions| < |old(sessions)|)
        decreases |sessions| - i
      {
        var duplicate := sessions[i].established && sessions[i].address == address && sessions[i].peer != peer;
        if duplicate {
          FilterSwapRemove(q, sessions, i);
          FilterOne(q, sessions[i]);
          sessions := SwapRemove(sessions, i);
          wakePending := true;
        } else {
          i := i + 1;
        }
      }
      FilterAll(q, sessions);
    }

    method Drop(i: nat)
      requires i < |sessions|
      modifies this`sessions, this`wakePending
      ensures View() == WithSessions(old(View()), SwapRemove(old(sessions), i))
    {
      sessions := SwapRemove(sessions, i);
      wakePending := true;
    }

    /** The handshake of a session that is not established yet. */
    method Handshake(i: nat, h: HandshakeResult) returns (ghost after: seq<Session>)
      requires Shape(View()) && i < |sessions| && !sessions[i].established
      requires FirstBinding(updates[taken].bindings, h)
      modifies this
      ensures HandshakeStep(cfg, old(View()), i, h, after, View())
    {
      after := [];
      var establishedBefore := Count(Established, sessions);
      match h {
        case Incomplete(timeout) =>
          sessions := sessions[i := sessions[i].(dtlsDeadline := Some(now + timeout))];
          wakePending := true;
        case HandshakeError => Drop(i);
        case NoFingerprint => Drop(i);
        case Complete(fingerprint, first, san, source) =>
          if fingerprint !in updates[taken].bindings.Values
             || (cfg.verifySan && !san.Passes?)
             || PeerIp(sessions[i].peer).None?
             || !source.Passes? {
            Drop(i);
          } else {
            after := Connect(i, h, establishedBefore);
          }
      }
    }

    method Connect(i: nat, h: HandshakeResult, establishedBefore: nat) returns (ghost after: seq<Session>)
      requires Shape(View()) && i < |sessions| && h.Complete?
      modifies this
      ensures SettleConnected(cfg, establishedBefore, Establish(old(View()), i, h), i, after, View())
    {
      var address := h.first;
      var authenticated := address !in updates[taken].logins;
      var session := sessions[i].(
        address := address, fingerprint := Some(h.fingerprint), established := true, authenticated := authenticated,
        establishedAt := Some(now), dtlsDeadline := None, boundUnder := taken, retainedAfter := |updates| - 1);
      session := QueuePlain(session, if authenticated then AUTH_OK else AUTH_REQUIRED);
      sessions := sessions[i := session];
      wakePending := true;
      log := log + [Connected(session.serial, address, h.fingerprint, taken, !authenticated,
                              Evidence(session.peer, h.san, h.source))];
      assert View() == Establish(old(View()), i, h);
      after := [];
      var replacesExisting := Count(DuplicateOf(address, session.peer), sessions) > 0;
      if establishedBefore >= cfg.maxClients && !replacesExisting {
        Drop(i);
      } else if authenticated {
        ReplaceDuplicates(address, session.peer);
        after := sessions;
      }
    }

    /** A datagram popped from udp_rx_queue. */
    method ReceiveDatagram(d: Datagram, a: Admission, inject: InjectResult, h: HandshakeResult)
      returns (ghost after: seq<Session>)
      requires Shape(View()) && phase.Deduped? && !stopped
      requires FirstBinding(updates[taken].bindings, h)
      modifies this
      ensures Next(cfg, old(View()), Receive(d, a, inject, h, after), View())
    {
      hide TickStep, Route, DrainFrom, RetainBy, FlushAll, KeepLast, NextWake, AdmitIfRoom, Filter,
        SettleConnected, CertificateAccepted, Establish, Arrive;
      after := [];
      var at := PositionOf(d.peer, sessions);
      var isNew := at.None?;
      if isNew {
        at := AdmitNew(d.peer, a);
      }
      phase := Top;
      if at.None? {
        return;
      }
      var i := at.value;
      if !isNew {
        var inbound := sessions[i].inbound;
        sessions := sessions[i := sessions[i].(inbound := Arrive(inbound, d.bytes, inject))];
        if inbound.pending == [] && inject.Refusal? {
          return;
        }
      }
      if !sessions[i].established {
        after := Handshake(i, h);
      }
    }

    // ----- Encrypt -----

    /** max_by_key over the receivers of a unicast packet. */
    method FindReceiver(address: Ipv4) returns (at: Option<nat>)
      ensures at == PickReceiver(sessions, address)
    {
      at := None;
      var i := 0;
      while i < |sessions|
        invariant i <= |sessions|
        invariant at == PickReceiver(sessions[..i], address)
      {
        assert sessions[..i + 1][..i] == sessions[..i];
        if sessions[i].authenticated && sessions[i].address == address
           && (at.None? || sessions[at.value].lastActivity <= sessions[i].lastActivity) {
          at := Some(i);
        }
        i := i + 1;
      }
      assert sessions[..|sessions|] == sessions;
    }

    /** Queues a packet for every authenticated session. */
    method QueueForAll(packet: Bytes)
      modifies this`sessions, this`log
      ensures sessions == QueueAuthenticated(old(sessions), packet)
      ensures log == old(log) + RoutedTo(old(sessions), packet)
    {
      hide QueuePlain, QueueAuthenticated, RoutedTo;
      RoutedNothing(packet);
      var i := 0;
      while i < |sessions|
        invariant i <= |sessions| == |old(sessions)|
        invariant forall j :: 0 <= j < i ==>
                    sessions[j] == if old(sessions)[j].authenticated then QueuePlain(old(sessions)[j], packet)
                      else old(sessions)[j]
        invariant forall j :: i <= j < |sessions| ==> sessions[j] == old(sessions)[j]
        invariant log == old(log) + RoutedTo(old(sessions)[..i], packet)
      {
        RoutedPush(old(sessions), i, packet);
        if sessions[i].authenticated {
          log := log + [Routed(sessions[i].serial, packet)];
          sessions := sessions[i := QueuePlain(sessions[i], packet)];
        }
        i := i + 1;
      }
      assert old(sessions)[..i] == old(sessions);
      assert sessions == QueueAuthenticated(old(sessions), packet);
    }

    /** flush_pending: every session's plaintext queue is visited once. */
    method Flush(flush: FlushOracle)
      modifies this`sessions
      ensures sessions == FlushAll(old(sessions), flush, now)
    {
      hide FlushOne;
      var i := 0;
      while i < |sessions|
        invariant i <= |sessions| == |old(sessions)|
        invariant forall j :: 0 <= j < i ==> sessions[j] == FlushOne(old(sessions)[j], flush, now)
        invariant forall j :: i <= j < |sessions| ==> sessions[j] == old(sessions)[j]
      {
        sessions := sessions[i := FlushOne(sessions[i], flush, now)];
        i := i + 1;
      }
    }

    /** A packet popped from tun_read_queue. */
    method RoutePacket(packet: Bytes, flush: FlushOracle)
      requires Shape(View())
      modifies this`sessions, this`log
      ensures Next(cfg, old(View()), Step.RoutePacket(packet, flush), View())
    {
      hide ReceiveStep, TickStep, DrainFrom, RetainBy, FlushAll, KeepLast, NextWake, QueueAuthenticated,
        RoutedTo, QueuePlain,
        FlushOne, IsBroadcast, IsMulticast, PacketAddresses;
      var addresses := PacketAddresses(packet);
      if addresses.None? {
        return;
      }
      var destination := addresses.value.1;
      var broadcast := IsBroadcast(destination, cfg.policy.network, cfg.policy.prefix);
      var multicast := IsMulticast(destination);
      if (broadcast && cfg.policy.allowBroadcast) || (multicast && cfg.policy.allowMulticast) {
        QueueForAll(packet);
        Flush(flush);
      } else if !broadcast && !multicast {
        var at := FindReceiver(destination);
        if at.Some? {
          var session := QueuePlain(sessions[at.value], packet);
          log := log + [Routed(sessions[at.value].serial, packet)];
          sessions := sessions[at.value := FlushOne(session, flush, now)];
        }
      }
    }

    // ----- UDP write -----

    /** swap_remove at the given indices, the highest first. */
    method RemoveAll(remove: seq<nat>, ghost q: Query)
      requires forall k, l :: 0 <= k < l < |remove| ==> remove[k] < remove[l]
      requires forall k :: 0 <= k < |remove| ==> remove[k] < |sessions|
      requires forall j :: 0 <= j < |sessions| ==> (j in remove <==> !Matches(q, sessions[j]))
      modifies this`sessions
      ensures multiset(sessions) == multiset(Filter(q, old(sessions)))
      ensures |sessions| == |old(sessions)| - |remove| && (remove == [] ==> sessions == old(sessions))
    {
      hide Matches, Filter;
      ghost var start := sessions;
      var n := |remove|;
      while n > 0
        invariant 0 <= n <= |remove|
        invariant |sessions| == |start| - (|remove| - n)
        invariant forall k :: 0 <= k < n ==> remove[k] < |sessions|
        invariant forall j :: 0 <= j < |sessions| && (n < |remove| ==> j < remove[n]) ==> sessions[j] == start[j]
        invariant forall j :: 0 <= j < |sessions| && n < |remove| && remove[n] <= j ==> Matches(q, sessions[j])
        invariant multiset(Filter(q, sessions)) == multiset(Filter(q, start))
      {
        var at := remove[n - 1];
        assert at in remove && !Matches(q, sessions[at]);
        RemovedLast(remove, n, |sessions|, start, sessions, q);
        FilterSwapRemove(q, sessions, at);
        FilterOne(q, sessions[at]);
        sessions := SwapRemove(sessions, at);
        n := n - 1;
      }
      assert forall j :: 0 <= j < |sessions| ==> Matches(q, sessions[j]);
      FilterAll(q, sessions);
    }

    /** Sessions whose socket write failed are collected by index during the pass and removed
        afterwards. */
    method RemoveFailed(failed: set<nat>)
      requires Shape(View())
      modifies this`sessions, this`wakePending
      ensures Next(cfg, old(View()), UdpRemove(failed, sessions), View())
    {
      hide ReceiveStep, TickStep, Route, DrainFrom, RetainBy, FlushAll, KeepLast, NextWake;
      var q := SerialOutside(failed);
      var remove: seq<nat> := [];
      var i := 0;
      while i < |sessions|
        invariant i <= |sessions|
        invariant forall k :: 0 <= k < |remove| ==> remove[k] < i
        invariant forall k, l :: 0 <= k < l < |remove| ==> remove[k] < remove[l]
        invariant forall j :: 0 <= j < i ==> (j in remove <==> !Matches(q, sessions[j]))
      {
        if sessions[i].serial in failed {
          remove := remove + [i];
        }
        i := i + 1;
      }
      RemoveAll(remove, q);
      wakePending := wakePending || remove != [];
    }

    // ----- Control -----

    method Disconnect(addresses: seq<Ipv4>)
      modifies this`sessions
      ensures sessions == DisconnectAll(old(sessions), addresses)
    {
      var k := 0;
      while k < |addresses|
        invariant k <= |addresses|
        invariant DisconnectAll(sessions, addresses[k..]) == DisconnectAll(old(sessions), addresses)
      {
        sessions := Filter(NotConnectedAt(addresses[k]), sessions);
        k := k + 1;
      }
    }

    /** The retransmission loop: a failed session is swap_removed and the index looked at again. */
    method Retransmit(o: map<nat, RetransmitResult>)
      modifies this`sessions
      ensures multiset(sessions) == multiset(RetransmitAll(old(sessions), o, now))
    {
      hide RetransmitAll, HalfRetransmitted;
      var i := 0;
      HalfStart(sessions, o, now);
      while i < |sessions|
        invariant i <= |sessions|
        invariant HalfRetransmitted(sessions, i, RetransmitAll(old(sessions), o, now), o, now)
        decreases |sessions| - i
      {
        var session := sessions[i];
        if !session.established && session.dtlsDeadline.Some? && session.dtlsDeadline.value <= now {
          if session.serial !in o || o[session.serial].RetransmitError? {
            HalfRemove(sessions, i, RetransmitAll(old(sessions), o, now), o, now);
            sessions := SwapRemove(sessions, i);
            continue;
          }
          session := session.(dtlsDeadline := Some(now + o[session.serial].timeout));
        }
        HalfKeep(sessions, i, RetransmitAll(old(sessions), o, now), o, now);
        sessions := sessions[i := session];
        i := i + 1;
      }
      HalfEnd(sessions, RetransmitAll(old(sessions), o, now), o, now);
    }

    /** Commands, retransmission, expiry: the control thread's section under the lock. */
    method Tick(disconnects: seq<Ipv4>, o: map<nat, RetransmitResult>) returns (ghost mid: seq<Session>)
      requires Shape(View()) && control.Ticking?
      modifies this`sessions, this`wakePending
      ensures Next(cfg, old(View()), ControlTick(disconnects, o, mid), View())
    {
      hide ReceiveStep, Route, DrainFrom, RetainBy, FlushAll, KeepLast, NextWake, RetransmitAll, DisconnectAll, Filter;
      var before := |sessions|;
      Disconnect(disconnects);
      Retransmit(o);
      mid := sessions;
      sessions := Filter(Unexpired(now, cfg.maxLifetime), sessions);
      wakePending := wakePending || |sessions| < before;
    }

    /** A parsed configuration is retained by and queued for decrypt; a rejected one changes
        nothing. */
    method Reload(parsed: Option<Update>)
      requires Shape(View()) && control.Ticking?
      modifies this
      ensures parsed.None? ==> View() == old(View())
      ensures parsed.Some? ==> Next(cfg, old(View()), Retain(parsed.value), View())
    {
      hide ReceiveStep, TickStep, Route, DrainFrom, FlushAll, KeepLast, NextWake, Filter;
      if parsed.Some? {
        var update := parsed.value;
        var kept := Filter(Authorised(update, updates[|updates| - 1].logins), sessions);
        wakePending := wakePending || |kept| < |sessions|;
        sessions := kept;
        updates := updates + [update];
        control := Retained;
      }
    }

    method Send()
      requires Shape(View()) && control.Retained?
      modifies this`sent, this`control
      ensures Next(cfg, old(View()), SendUpdate, View())
    {
      hide ReceiveStep, TickStep, Route, DrainFrom, RetainBy, FlushAll, KeepLast, NextWake;
      sent := |updates|;
      control := Ticking;
    }

    /** The next wake-up: the minimum over every session's deadlines and `base`. */
    method Sleep(base: Instant)
      requires Shape(View()) && control.Ticking?
      modifies this`control
      ensures Next(cfg, old(View()), Block(base), View())
    {
      hide ReceiveStep, TickStep, Route, DrainFrom, RetainBy, FlushAll, KeepLast;
      var wake := base;
      var i := 0;
      while i < |sessions|
        invariant i <= |sessions|
        invariant wake == NextWake(sessions[..i], cfg.maxLifetime, base)
      {
        assert sessions[..i + 1][..i] == sessions[..i];
        var idle := sessions[i].lastActivity + IdleLimit(sessions[i]);
        if idle < wake { wake := idle; }
        if sessions[i].establishedAt.Some? && sessions[i].establishedAt.value + cfg.maxLifetime < wake {
          wake := sessions[i].establishedAt.value + cfg.maxLifetime;
        }
        if sessions[i].dtlsDeadline.Some? && sessions[i].dtlsDeadline.value < wake {
          wake := sessions[i].dtlsDeadline.value;
        }
        i := i + 1;
      }
      assert sessions[..|sessions|] == sessions;
      control := Blocked(wake);
    }
  }
}
