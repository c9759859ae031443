/** What one drain pass does, told from the answers of wolfSSL and the TUN device. */
module TurnEffects {
  import opened Net
  import opened InboundOrder
  import opened Login
  import opened SessionTable
  import opened ServerMachine
  import opened ServerInvariant
  import opened Permission

  // ----- A session's plaintext queue -----

  /** `packet` is last, the others keep their order, and only the oldest of a full queue is lost. */
  predicate Appended(before: seq<Bytes>, after: seq<Bytes>, packet: Bytes) {
    && after != [] && after[|after| - 1] == packet
    && (if |before| == 512 then after[..|after| - 1] == before[1..] else after[..|after| - 1] == before)
  }

  lemma {:induction false} QueueAppends(s: Session, packet: Bytes)
    ensures QueuePlain(s, packet) == s.(rawTx := QueuePlain(s, packet).rawTx)
    ensures Appended(s.rawTx, QueuePlain(s, packet).rawTx, packet)
  {
    var q := QueuePlain(s, packet).rawTx;
    assert q[..|q| - 1] == if |s.rawTx| == 512 then s.rawTx[1..] else s.rawTx;
  }

  /** The replies a client can be sent, as text behind the byte that no IP packet begins with. */
  function Text(s: string): Bytes
    requires forall i :: 0 <= i < |s| ==> s[i] as int < 128
  {
    seq(|s|, i requires 0 <= i < |s| => s[i] as byte)
  }

  lemma {:induction false} ReplyTexts()
    ensures AUTH_OK == [0xFF] + Text("AVPN_AUTH_OK")
    ensures AUTH_FAILED == [0xFF] + Text("AVPN_AUTH_FAILED")
    ensures AUTH_REQUIRED == [0xFF] + Text("AVPN_AUTH_REQUIRED")
    ensures LOGIN_PREFIX == [0xFF] + Text("AVPN_AUTH_LOGIN") + [0]
  {
  }

  /** None of them can be taken for a packet, a keepalive or another one. */
  lemma {:induction false} RepliesStandApart(frame: Bytes)
    requires frame != [] && frame[0] == 0xFF
    ensures PacketAddresses(frame).None? && frame != KEEPALIVE_PACKET
    ensures |AUTH_OK| != |AUTH_FAILED| && |AUTH_FAILED| != |AUTH_REQUIRED| && |AUTH_OK| != |AUTH_REQUIRED|
  {
  }

  // ----- One turn -----

  /** A record with plaintext was read. */
  predicate Plaintext(o: DrainOracle) { o.read.Data? && |o.read.packet| > 0 }

  /** The one login frame that is looked at. */
  predicate FirstFrame(s: Session, o: DrainOracle) { Plaintext(o) && !s.authenticated && !s.loginAttempted }

  /** It is the client's encoding of the credentials configured for the session's address. */
  predicate RightFrame(logins: map<Ipv4, Credentials>, s: Session, o: DrainOracle) {
    && FirstFrame(s, o) && s.address in logins
    && 0 !in logins[s.address].id && o.read.packet == Encode(logins[s.address])
  }

  predicate KeepaliveFrame(s: Session, o: DrainOracle) { Plaintext(o) && s.authenticated && o.read.packet == [0] }

  /** An IPv4 packet of a client that is let in, from its own address to a permitted one. */
  predicate Forwarded(policy: Policy, s: Session, o: DrainOracle) {
    && Plaintext(o) && s.authenticated && o.read.packet != [0]
    && match PacketAddresses(o.read.packet)
       case None => false
       case Some((source, destination)) => source == s.address && Permitted(policy, destination)
  }

  /** Whether the waiting datagram is offered to wolfSSL again in this turn. */
  predicate Offered(policy: Policy, s: Session, o: DrainOracle) {
    && s.inbound.pending != []
    && !(Plaintext(o) && !s.authenticated) && !KeepaliveFrame(s, o) && !(Forwarded(policy, s, o) && !o.tunOk)
  }

  /** What the session is sent in this turn, if anything. */
  function Reply(logins: map<Ipv4, Credentials>, s: Session, o: DrainOracle): Option<Bytes> {
    if RightFrame(logins, s, o) then Some(AUTH_OK)
    else if FirstFrame(s, o) then Some(AUTH_FAILED)
    else if KeepaliveFrame(s, o) then Some([0])
    else None
  }

  lemma {:induction false} Readings(policy: Policy, logins: map<Ipv4, Credentials>, s: Session, o: DrainOracle)
    ensures RightFrame(logins, s, o)
       <==> && FirstFrame(s, o) && Lookup(logins, s.address).Some?
            && LoginMatches(o.read.packet, Lookup(logins, s.address).value)
    ensures Forwarded(policy, s, o)
       <==> && Plaintext(o) && s.authenticated && o.read.packet != KEEPALIVE_PACKET
            && PacketAddresses(o.read.packet).Some?
            && PacketAddresses(o.read.packet).value.0 == s.address
            && DestinationPermitted(policy, PacketAddresses(o.read.packet).value.1)
  {
    hide PacketAddresses, LoginMatches, Encode, DestinationPermitted, Permitted;
    if FirstFrame(s, o) && s.address in logins { MatchesIffEncoding(o.read.packet, logins[s.address]); }
    if Plaintext(o) && PacketAddresses(o.read.packet).Some? {
      PermittedIff(policy, PacketAddresses(o.read.packet).value.1);
    }
  }

  /** The events, and the fields other than the queue and the inbound side. */
  lemma {:induction false} TurnFields(cfg: Config, st: State, s: Session, o: DrainOracle)
    requires Shape(st)
    ensures var t, logins := TurnOf(cfg, st, s, o), Current(st).logins;
            && t.session == s.(authenticated := s.authenticated || RightFrame(logins, s, o),
                               loginAttempted := s.loginAttempted || FirstFrame(s, o),
                               lastActivity := if RightFrame(logins, s, o) || KeepaliveFrame(s, o)
                                                  || (Forwarded(cfg.policy, s, o) && o.tunOk)
                                               then st.now else s.lastActivity,
                               inbound := t.session.inbound, rawTx := t.session.rawTx)
            && t.events == (if FirstFrame(s, o)
                            then [LoginFrame(s.serial, o.read.packet, st.taken, RightFrame(logins, s, o))]
                            else if Forwarded(cfg.policy, s, o) then [TunWrite(s.serial, o.read.packet)]
                            else [])
            && (t.flow.StopServer? <==> Forwarded(cfg.policy, s, o) && !o.tunOk)
            && (t.wake <==> RightFrame(logins, s, o))
  {
    hide PacketAddresses, LoginMatches, DestinationPermitted, Retry, AfterRead, RightFrame, Forwarded;
    Readings(cfg.policy, Current(st).logins, s, o);
  }

  /** What the session is sent. */
  lemma {:induction false} TurnReply(cfg: Config, st: State, s: Session, o: DrainOracle)
    requires Shape(st)
    ensures var t := TurnOf(cfg, st, s, o);
            match Reply(Current(st).logins, s, o)
            case None => t.session.rawTx == s.rawTx
            case Some(frame) => Appended(s.rawTx, t.session.rawTx, frame)
  {
    hide Retry, AfterRead, RightFrame, Forwarded, Appended, PlainTurn, QueuePlain;
    var r := s.(inbound := AfterRead(s.inbound, o.read));
    AfterReadWaits(s.inbound, o.read);
    SameReading(cfg.policy, Current(st).logins, s, r, o);
    if Plaintext(o) { PlainReply(cfg.policy, st.taken, Current(st).logins, st.now, r, o); }
  }

  lemma {:induction false} AfterReadWaits(b: Inbound, read: ReadResult)
    ensures AfterRead(b, read).pending == b.pending
  {
  }

  lemma {:induction false} PlainReply(policy: Policy, under: nat, logins: map<Ipv4, Credentials>, now: Instant,
                                      s: Session, o: DrainOracle)
    requires Plaintext(o)
    ensures var t := PlainTurn(policy, under, logins, now, s, o.read.packet, o.tunOk);
            && t.session.inbound == s.inbound
            && match Reply(logins, s, o)
               case None => t.session.rawTx == s.rawTx
               case Some(frame) => Appended(s.rawTx, t.session.rawTx, frame)
    ensures PlainTurn(policy, under, logins, now, s, o.read.packet, o.tunOk).flow.RetryPending?
       <==> s.authenticated && !KeepaliveFrame(s, o) && !(Forwarded(policy, s, o) && !o.tunOk)
  {
    hide PacketAddresses, LoginMatches, DestinationPermitted, RightFrame, Forwarded, Appended;
    Readings(policy, logins, s, o);
    QueueAppends(s, AUTH_OK);
    QueueAppends(s, AUTH_FAILED);
    QueueAppends(s, KEEPALIVE_PACKET);
  }

  /** The inbound side: one read, then the waiting datagram is offered again unless the turn
      ended with a login frame, a keepalive or a failed TUN write. */
  lemma {:induction false} TurnInbound(cfg: Config, st: State, s: Session, o: DrainOracle)
    requires Shape(st)
    ensures var before, after := s.inbound, TurnOf(cfg, st, s, o).session.inbound;
            && after.arrived == before.arrived
            && after.contacts == before.contacts + [Read(o.read)]
                                 + (if Offered(cfg.policy, s, o) then [Inject(o.inject)] else [])
            && after.pending == (if Offered(cfg.policy, s, o) && o.inject != AppDataReady then before.pending[1..]
                                 else before.pending)
            && after.injected == (if Offered(cfg.policy, s, o) && o.inject == Accepted
                                  then before.injected + [before.pending[0]] else before.injected)
  {
    hide Settle, Forwarded, PlainTurn, Reply;
    var r := s.(inbound := AfterRead(s.inbound, o.read));
    SameReading(cfg.policy, Current(st).logins, s, r, o);
    if Plaintext(o) { PlainReply(cfg.policy, st.taken, Current(st).logins, st.now, r, o); }
  }

  /** The reading of a record does not depend on the inbound side. */
  lemma {:induction false} SameReading(policy: Policy, logins: map<Ipv4, Credentials>, s: Session, r: Session,
                                       o: DrainOracle)
    requires r == s.(inbound := r.inbound) && r.inbound.pending == s.inbound.pending
    ensures Offered(policy, r, o) <==> Offered(policy, s, o)
    ensures Forwarded(policy, r, o) <==> Forwarded(policy, s, o)
    ensures Reply(logins, r, o) == Reply(logins, s, o)
    ensures Forwarded(policy, s, o) || Reply(logins, s, o).Some? ==> Plaintext(o)
  {
  }

  // ----- The pass -----

  /** A session is looked at when it is established and has something to read or to inject. */
  predicate Due(s: Session) { s.established && (s.inbound.drainPending || |s.inbound.pending| > 0) }

  /** A session after its turn, or as it was when it is not due. */
  function After(cfg: Config, st: State, s: Session, o: DrainOracle): Session
    requires Shape(st)
  {
    if Due(s) then TurnOf(cfg, st, s, o).session else s
  }

  function EventsOf(cfg: Config, st: State, s: Session, o: DrainOracle): seq<Event>
    requires Shape(st)
  {
    if Due(s) then TurnOf(cfg, st, s, o).events else []
  }

  predicate Stops(cfg: Config, st: State, s: Session, o: DrainOracle)
    requires Shape(st)
  {
    Due(s) && TurnOf(cfg, st, s, o).flow.StopServer?
  }

  function PassEvents(cfg: Config, st: State, list: seq<Session>, oracles: seq<DrainOracle>): seq<Event>
    requires Shape(st) && |list| == |oracles|
  {
    if list == [] then []
    else EventsOf(cfg, st, list[0], oracles[0]) + PassEvents(cfg, st, list[1..], oracles[1..])
  }

  /** How far the pass comes: behind the first session whose packet the TUN device refuses. */
  function Reach(cfg: Config, st: State, i: nat, oracles: seq<DrainOracle>): (n: nat)
    requires Shape(st) && i <= |st.sessions| == |oracles|
    ensures i <= n <= |st.sessions|
    decreases |oracles| - i
  {
    if i == |oracles| then i
    else if Stops(cfg, st, st.sessions[i], oracles[i]) then i + 1
    else Reach(cfg, st, i + 1, oracles)
  }

  lemma {:induction false} SameReach(cfg: Config, st: State, mid: State, i: nat, oracles: seq<DrainOracle>)
    requires Shape(st) && Shape(mid) && mid.updates == st.updates && mid.taken == st.taken && mid.now == st.now
    requires i <= |st.sessions| == |mid.sessions| == |oracles|
    requires forall k :: i <= k < |st.sessions| ==> mid.sessions[k] == st.sessions[k]
    ensures Reach(cfg, mid, i, oracles) == Reach(cfg, st, i, oracles)
    decreases |oracles| - i
  {
    hide Stops;
    if i < |oracles| {
      SameTurn(cfg, st, mid, st.sessions[i], oracles[i]);
      SameReach(cfg, st, mid, i + 1, oracles);
    }
  }

  /** The pass gives every due session exactly one turn and touches no other; only a failed TUN
      write ends it early. */
  lemma {:induction false} PassEffects(cfg: Config, st: State, i: nat, oracles: seq<DrainOracle>)
    requires Shape(st) && i <= |st.sessions| == |oracles| && !st.stopped
    ensures var n, r := Reach(cfg, st, i, oracles), DrainFrom(cfg, st, i, oracles);
            && |r.sessions| == |st.sessions| && (n < |st.sessions| ==> r.stopped)
            && (forall k :: i <= k < n ==> r.sessions[k] == After(cfg, st, st.sessions[k], oracles[k]))
            && (forall k :: 0 <= k < |st.sessions| && (k < i || n <= k) ==> r.sessions[k] == st.sessions[k])
            && (r.stopped <==> exists k :: i <= k < n && Stops(cfg, st, st.sessions[k], oracles[k]))
    decreases |oracles| - i
  {
    hide DrainAt, After, Stops;
    if i < |oracles| {
      var n := Reach(cfg, st, i, oracles);
      var mid := DrainAt(cfg, st, i, oracles[i]);
      SameTurns(cfg, st, i, oracles[i]);
      if !mid.stopped {
        PassEffects(cfg, mid, i + 1, oracles);
        SameReach(cfg, st, mid, i + 1, oracles);
        forall k | i + 1 <= k < n
          ensures After(cfg, mid, mid.sessions[k], oracles[k]) == After(cfg, st, st.sessions[k], oracles[k])
          ensures Stops(cfg, mid, mid.sessions[k], oracles[k]) <==> Stops(cfg, st, st.sessions[k], oracles[k])
        {
          SameTurn(cfg, st, mid, st.sessions[k], oracles[k]);
        }
      }
    }
  }

  /** The events, in table order. */
  lemma {:induction false} PassLog(cfg: Config, st: State, i: nat, oracles: seq<DrainOracle>)
    requires Shape(st) && i <= |st.sessions| == |oracles| && !st.stopped
    ensures var n := Reach(cfg, st, i, oracles);
            DrainFrom(cfg, st, i, oracles).log == st.log + PassEvents(cfg, st, st.sessions[i..n], oracles[i..n])
    decreases |oracles| - i
  {
    hide DrainAt, EventsOf, PassEvents, Stops;
    NoEvents(cfg, st);
    var n := Reach(cfg, st, i, oracles);
    if i == |oracles| {
      assert st.sessions[i..n] == [] && oracles[i..n] == [];
    } else {
      var mid := DrainAt(cfg, st, i, oracles[i]);
      SameTurns(cfg, st, i, oracles[i]);
      var first := EventsOf(cfg, st, st.sessions[i], oracles[i]);
      if mid.stopped {
        assert st.sessions[i + 1..n] == [] && oracles[i + 1..n] == [] && first + [] == first;
      } else {
        PassLog(cfg, mid, i + 1, oracles);
        SameReach(cfg, st, mid, i + 1, oracles);
        assert mid.sessions[i + 1..n] == st.sessions[i + 1..n];
        EventsFrame(cfg, st, mid, st.sessions[i + 1..n], oracles[i + 1..n]);
      }
      FirstEvents(cfg, st, st.sessions[i..n], oracles[i..n]);
      assert st.sessions[i..n][1..] == st.sessions[i + 1..n] && oracles[i..n][1..] == oracles[i + 1..n];
      var rest := PassEvents(cfg, st, st.sessions[i + 1..n], oracles[i + 1..n]);
      assert (st.log + first) + rest == st.log + (first + rest);
    }
  }

  lemma {:induction false} NoEvents(cfg: Config, st: State)
    requires Shape(st)
    ensures PassEvents(cfg, st, [], []) == []
  {
  }

  lemma {:induction false} FirstEvents(cfg: Config, st: State, list: seq<Session>, oracles: seq<DrainOracle>)
    requires Shape(st) && 0 < |list| == |oracles|
    ensures PassEvents(cfg, st, list, oracles)
         == EventsOf(cfg, st, list[0], oracles[0]) + PassEvents(cfg, st, list[1..], oracles[1..])
  {
    hide EventsOf;
  }

  lemma {:induction false} SameTurns(cfg: Config, st: State, i: nat, o: DrainOracle)
    requires Shape(st) && i < |st.sessions| && !st.stopped
    ensures var mid := DrainAt(cfg, st, i, o);
            && mid.sessions == st.sessions[i := After(cfg, st, st.sessions[i], o)]
            && mid.log == st.log + EventsOf(cfg, st, st.sessions[i], o)
            && mid.updates == st.updates && mid.taken == st.taken && mid.now == st.now && mid.sent == st.sent
            && mid.control == st.control
            && (mid.stopped <==> Stops(cfg, st, st.sessions[i], o))
  {
    hide DrainTurn;
    assert st.log + [] == st.log;
  }

  lemma {:induction false} SameTurn(cfg: Config, st: State, mid: State, s: Session, o: DrainOracle)
    requires Shape(st) && Shape(mid) && mid.updates == st.updates && mid.taken == st.taken && mid.now == st.now
    ensures TurnOf(cfg, mid, s, o) == TurnOf(cfg, st, s, o)
    ensures After(cfg, mid, s, o) == After(cfg, st, s, o) && EventsOf(cfg, mid, s, o) == EventsOf(cfg, st, s, o)
    ensures Stops(cfg, mid, s, o) <==> Stops(cfg, st, s, o)
  {
    hide DrainTurn;
  }

  lemma {:induction false} EventsFrame(cfg: Config, st: State, mid: State, list: seq<Session>,
                                       oracles: seq<DrainOracle>)
    requires Shape(st) && Shape(mid) && mid.updates == st.updates && mid.taken == st.taken && mid.now == st.now
    requires |list| == |oracles|
    ensures PassEvents(cfg, mid, list, oracles) == PassEvents(cfg, st, list, oracles)
  {
    hide DrainTurn;
    if list != [] {
      SameTurn(cfg, st, mid, list[0], oracles[0]);
      EventsFrame(cfg, st, mid, list[1..], oracles[1..]);
    }
  }

  /** The step of the machine. */
  lemma {:induction false} DrainEffects(cfg: Config, st: State, oracles: seq<DrainOracle>, st': State) returns (n: nat)
    requires Next(cfg, st, Drain(oracles), st')
    ensures n <= |st.sessions| == |st'.sessions| == |oracles| && (n < |st.sessions| ==> st'.stopped)
    ensures forall k :: 0 <= k < n ==> st'.sessions[k] == After(cfg, st, st.sessions[k], oracles[k])
    ensures forall k :: n <= k < |st.sessions| ==> st'.sessions[k] == st.sessions[k]
    ensures st'.log == st.log + PassEvents(cfg, st, st.sessions[..n], oracles[..n])
    ensures st'.stopped
       <==> exists k :: 0 <= k < n && Due(st.sessions[k]) && Forwarded(cfg.policy, st.sessions[k], oracles[k])
                        && !oracles[k].tunOk
  {
    hide DrainFrom, TurnOf, Due, Forwarded, After, Reach, PassEvents;
    PassEffects(cfg, st, 0, oracles);
    PassLog(cfg, st, 0, oracles);
    n := Reach(cfg, st, 0, oracles);
    assert st.sessions[0..n] == st.sessions[..n] && oracles[0..n] == oracles[..n];
    forall k | 0 <= k < n
      ensures Stops(cfg, st, st.sessions[k], oracles[k])
         <==> Due(st.sessions[k]) && Forwarded(cfg.policy, st.sessions[k], oracles[k]) && !oracles[k].tunOk
    {
      TurnFields(cfg, st, st.sessions[k], oracles[k]);
    }
  }
}
