/** The control thread's sleep against the sessions' deadlines. */
module Oversleep {
  import opened Net
  import opened InboundOrder
  import opened Login
  import opened SessionTable
  import opened ServerMachine
  import opened ServerInvariant

  /** No deadline of the list falls before `until`. */
  ghost predicate NoneBefore(list: seq<Session>, maxLifetime: nat, until: Instant) {
    forall i :: 0 <= i < |list| ==> until <= EarliestDeadline(list[i], maxLifetime)
  }

  ghost predicate Rested(cfg: Config, st: State) {
    st.control.Blocked? && !st.wakePending ==> NoneBefore(st.sessions, cfg.maxLifetime, st.control.until)
  }

  lemma EarliestIsMinimum(s: Session, maxLifetime: nat)
    ensures EarliestDeadline(s, maxLifetime) in Deadlines(s, maxLifetime)
    ensures forall d :: d in Deadlines(s, maxLifetime) ==> EarliestDeadline(s, maxLifetime) <= d
  {
  }

  lemma {:induction false} NextWakeIsBound(list: seq<Session>, maxLifetime: nat, base: Instant)
    ensures NoneBefore(list, maxLifetime, NextWake(list, maxLifetime, base))
    ensures NextWake(list, maxLifetime, base) <= base
    ensures NextWake(list, maxLifetime, base) == base
         || exists i :: 0 <= i < |list| && NextWake(list, maxLifetime, base) == EarliestDeadline(list[i], maxLifetime)
  {
    if list != [] {
      var n := |list| - 1;
      NextWakeIsBound(list[..n], maxLifetime, base);
      if NextWake(list, maxLifetime, base) != base
        && NextWake(list, maxLifetime, base) != EarliestDeadline(list[n], maxLifetime) {
        var i :| 0 <= i < n && NextWake(list[..n], maxLifetime, base) == EarliestDeadline(list[..n][i], maxLifetime);
        assert list[..n][i] == list[i];
      }
    }
  }

  lemma NoneBeforeMonotone(less: seq<Session>, more: seq<Session>, maxLifetime: nat, until: Instant)
    requires multiset(less) <= multiset(more) && NoneBefore(more, maxLifetime, until)
    ensures NoneBefore(less, maxLifetime, until)
  {
    forall i | 0 <= i < |less| ensures until <= EarliestDeadline(less[i], maxLifetime) {
      assert less[i] in multiset(more);
      var j :| 0 <= j < |more| && more[j] == less[i];
    }
  }

  // ----- Decrypt and encrypt only postpone deadlines, or wake the control thread -----

  lemma TurnPostpones(cfg: Config, st: State, s: Session, o: DrainOracle)
    requires Shape(st) && RecordOk(st.now, s) && s.established
    ensures EarliestDeadline(s, cfg.maxLifetime) <= EarliestDeadline(TurnOf(cfg, st, s, o).session, cfg.maxLifetime)
  {
    hide PacketAddresses, LoginMatches, DestinationPermitted, Retry, Ordered;
  }

  lemma DrainAtRested(cfg: Config, st: State, i: nat, o: DrainOracle)
    requires Good(cfg, st) && i < |st.sessions| && Rested(cfg, st)
    ensures Rested(cfg, DrainAt(cfg, st, i, o))
  {
    assert SessionOk(st, st.sessions[i]);
    if NeedsTurn(st.sessions[i]) {
      TurnPostpones(cfg, st, st.sessions[i], o);
    }
  }

  lemma {:induction false} DrainRested(cfg: Config, st: State, i: nat, oracles: seq<DrainOracle>)
    requires Good(cfg, st) && i <= |st.sessions| == |oracles| && Rested(cfg, st)
    ensures Rested(cfg, DrainFrom(cfg, st, i, oracles))
    decreases |oracles| - i
  {
    if i < |oracles| && !st.stopped {
      DrainAtKeepsGood(cfg, st, i, oracles[i]);
      DrainAtRested(cfg, st, i, oracles[i]);
      DrainRested(cfg, DrainAt(cfg, st, i, oracles[i]), i + 1, oracles);
    }
  }

  /** A removal keeps the claim. */
  lemma RemovalRested(cfg: Config, st: State, st': State)
    requires Rested(cfg, st) && multiset(st'.sessions) <= multiset(st.sessions)
    requires st'.control == st.control && (st.wakePending ==> st'.wakePending)
    ensures Rested(cfg, st')
  {
    if st.control.Blocked? && !st'.wakePending {
      NoneBeforeMonotone(st'.sessions, st.sessions, cfg.maxLifetime, st.control.until);
    }
  }

  lemma AdmitIfRoomRested(cfg: Config, st: State, peer: Peer, ip: Ipv4, acceptorOk: bool)
    requires Rested(cfg, st)
    ensures Rested(cfg, AdmitIfRoom(cfg, st, peer, ip, acceptorOk).state)
  {
    var located := AdmitIfRoom(cfg, st, peer, ip, acceptorOk);
    var oldest := OldestPending(st.sessions);
    if !located.isNew {
      if located.state.sessions != st.sessions {
        SwapRemoveIsRemoval(st.sessions, oldest.value);
      }
      RemovalRested(cfg, st, located.state);
    }
  }

  lemma LocateRested(cfg: Config, st: State, peer: Peer, a: Admission)
    requires Rested(cfg, st)
    ensures Rested(cfg, Locate(cfg, st, peer, a).state)
  {
    if PositionOf(peer, st.sessions).None? && PeerIp(peer).Some? {
      var ip := PeerIp(peer).value;
      match a.decision {
        case BannedNow =>
          FilterIsRemoval(NotPendingFrom(ip), st.sessions);
          RemovalRested(cfg, st, WithSessions(st, Filter(NotPendingFrom(ip), st.sessions)));
        case Allowed => AdmitIfRoomRested(cfg, st, peer, ip, a.acceptorOk);
        case Banned =>
      }
    }
  }

  lemma HandshakeRested(cfg: Config, st: State, i: nat, h: HandshakeResult, after: seq<Session>, st': State)
    requires Shape(st) && i < |st.sessions| && Rested(cfg, st) && HandshakeStep(cfg, st, i, h, after, st')
    ensures Rested(cfg, st')
  {
    if !st.sessions[i].established && !h.Incomplete? && !st'.wakePending {
      SwapRemoveIsRemoval(st.sessions, i);
      RemovalRested(cfg, st, st');
    }
  }

  lemma ReceiveRested(cfg: Config, st: State, d: Datagram, a: Admission, inject: InjectResult,
                      h: HandshakeResult, after: seq<Session>, st': State)
    requires ReceiveStepShape(cfg, st, d, a, inject, h, after, st') && Rested(cfg, st)
    ensures Rested(cfg, st')
  {
    hide HandshakeStep, Locate, Arrive;
    var located := Locate(cfg, st, d.peer, a);
    var arrived := Arrived(located, d.bytes, inject);
    LocateRested(cfg, st, d.peer, a);
    assert Rested(cfg, arrived);
    if located.index.Some? && !InjectRefused(located, inject) {
      HandshakeRested(cfg, arrived, located.index.value, h, after, st');
    }
  }

  ghost predicate ReceiveStepShape(cfg: Config, st: State, d: Datagram, a: Admission, inject: InjectResult,
                                   h: HandshakeResult, after: seq<Session>, st': State) {
    Shape(st) && ReceiveStep(cfg, st, d, a, inject, h, after, st')
  }

  lemma QueuedRested(cfg: Config, st: State, st': State)
    requires Good(cfg, st) && Rested(cfg, st) && AllOnlyQueued(st, st')
    requires st'.control == st.control && st'.wakePending == st.wakePending
    ensures Rested(cfg, st')
  {
    forall i | 0 <= i < |st.sessions|
      ensures EarliestDeadline(st.sessions[i], cfg.maxLifetime) <= EarliestDeadline(st'.sessions[i], cfg.maxLifetime)
    {
      assert SessionOk(st, st.sessions[i]);
    }
  }

  lemma RouteRested(cfg: Config, st: State, packet: Bytes, flush: FlushOracle)
    requires Good(cfg, st) && Rested(cfg, st)
    ensures Rested(cfg, Route(cfg, st, packet, flush))
  {
    hide Good, Rested, FlushAll, PacketAddresses, QueueAuthenticated;
    RouteShape(cfg, st, packet, flush);
    QueuedRested(cfg, st, Route(cfg, st, packet, flush));
  }

  lemma FlushRested(cfg: Config, st: State, flush: FlushOracle)
    requires Good(cfg, st) && Rested(cfg, st)
    ensures Rested(cfg, st.(sessions := FlushAll(st.sessions, flush, st.now)))
  {
    hide Good, Rested;
    var st' := st.(sessions := FlushAll(st.sessions, flush, st.now));
    forall i | 0 <= i < |st.sessions| ensures OnlyQueued(st.now, st.sessions[i], st'.sessions[i]) {
      QueueShape(st.now, st.sessions[i], [], flush);
    }
    QueuedRested(cfg, st, st');
  }

  lemma NextKeepsRested(cfg: Config, st: State, step: Step, st': State)
    requires Good(cfg, st) && Next(cfg, st, step, st') && Rested(cfg, st)
    ensures Rested(cfg, st')
  {
    hide Good, ReceiveStep, DrainFrom, KeepLast, NextWake, FlushAll, Route;
    match step {
      case Drain(oracles) => DrainRested(cfg, st, 0, oracles);
      case Dedupe =>
        KeepLastIsRemoval(st.sessions);
        RemovalRested(cfg, st, st');
      case Receive(d, a, inject, h, after) => ReceiveRested(cfg, st, d, a, inject, h, after, st');
      case RoutePacket(packet, flush) => RouteRested(cfg, st, packet, flush);
      case FlushSessions(flush) => FlushRested(cfg, st, flush);
      case UdpRemove(failed, after) =>
        FilterIsRemoval(SerialOutside(failed), st.sessions);
        RemovalRested(cfg, st, st');
      case Block(base) => NextWakeIsBound(st.sessions, cfg.maxLifetime, base);
      case _ =>
    }
  }

  lemma {:induction false} RunsAreRested(cfg: Config, update: Update, states: seq<State>, steps: seq<Step>, k: nat)
    requires IsRun(cfg, update, states, steps) && k < |states|
    ensures Rested(cfg, states[k])
  {
    if k > 0 {
      RunsAreGood(cfg, update, states, steps, k - 1);
      RunsAreRested(cfg, update, states, steps, k - 1);
      NextKeepsRested(cfg, states[k - 1], steps[k - 1], states[k]);
    }
  }

  /** While the control thread is blocked until `until` with no wake-up on its way, no session
      falls idle (after 5 minutes, 2 minutes without login, 10 seconds without handshake), reaches
      its lifetime or its retransmission deadline before `until`. */
  lemma NeverOversleeps(cfg: Config, update: Update, states: seq<State>, steps: seq<Step>, k: nat, i: nat)
    requires IsRun(cfg, update, states, steps) && k < |states| && i < |states[k].sessions|
    requires states[k].control.Blocked? && !states[k].wakePending
    ensures var s, until := states[k].sessions[i], states[k].control.until;
            && until <= s.lastActivity
                        + (if s.authenticated then 300_000 else if s.established then 120_000 else 10_000)
            && (s.dtlsDeadline.Some? ==> until <= s.dtlsDeadline.value)
            && (s.establishedAt.Some? ==> until <= s.establishedAt.value + cfg.maxLifetime)
  {
    RunsAreRested(cfg, update, states, steps, k);
    EarliestIsMinimum(states[k].sessions[i], cfg.maxLifetime);
    assert states[k].sessions[i].lastActivity + IdleLimit(states[k].sessions[i])
        in Deadlines(states[k].sessions[i], cfg.maxLifetime);
  }

  /** The expiry pass keeps a session exactly while it is neither idle for too long nor too old. */
  lemma ExpiryIsExact(s: Session, now: Instant, maxLifetime: nat)
    ensures Matches(Unexpired(now, maxLifetime), s)
       <==> && now < s.lastActivity + (if s.authenticated then 300_000 else if s.established then 120_000 else 10_000)
            && (s.establishedAt.Some? ==> now < s.establishedAt.value + maxLifetime)
  {
  }
}
