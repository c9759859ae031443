/** At most one authenticated session per VPN address, from each dedupe pass to the next drain
    pass, and what follows for routing and for servers without logins. */
module Uniqueness {
  import opened Net
  import opened InboundOrder
  import opened Login
  import opened SessionTable
  import opened ServerMachine
  import opened ServerInvariant

  ghost predicate Unique(list: seq<Session>) {
    forall address :: Count(ReceiverFor(address), list) <= 1
  }

  ghost predicate NoLogins(updates: seq<Update>) {
    forall u :: u in updates ==> u.logins == map[]
  }

  /** A login can only produce a second authenticated session in the drain pass, so the claim
      is suspended between that pass and the dedupe pass; without logins it never is. */
  ghost predicate UniqueNow(st: State) {
    !st.phase.Drained? || NoLogins(st.updates) ==> Unique(st.sessions)
  }

  lemma UniqueMonotone(less: seq<Session>, more: seq<Session>)
    requires multiset(less) <= multiset(more) && Unique(more)
    ensures Unique(less)
  {
    forall address ensures Count(ReceiverFor(address), less) <= 1 {
      CountMonotone(ReceiverFor(address), less, more);
    }
  }

  lemma UniquePointwise(list: seq<Session>, list': seq<Session>)
    requires |list| == |list'| && Unique(list)
    requires forall i :: 0 <= i < |list| ==>
                           list[i].authenticated == list'[i].authenticated && list[i].address == list'[i].address
    ensures Unique(list')
  {
    forall address ensures Count(ReceiverFor(address), list') <= 1 {
      CountSame(ReceiverFor(address), list, list');
    }
  }

  lemma {:induction false} KeepLastMembers(list: seq<Session>)
    ensures forall t :: t in KeepLast(list) ==> t in list
  {
    if list != [] {
      KeepLastMembers(list[1..]);
    }
  }

  lemma {:induction false} KeepLastCount(list: seq<Session>, address: Ipv4)
    ensures Count(ReceiverFor(address), KeepLast(list)) <= 1
  {
    if list != [] {
      var q := ReceiverFor(address);
      var rest := KeepLast(list[1..]);
      KeepLastCount(list[1..], address);
      KeepLastMembers(list[1..]);
      CountAppend(q, [list[0]], rest);
      CountOne(q, list[0]);
      CountZeroIff(q, rest);
    }
  }

  lemma KeepLastUnique(list: seq<Session>)
    ensures Unique(KeepLast(list))
  {
    forall address ensures Count(ReceiverFor(address), KeepLast(list)) <= 1 {
      KeepLastCount(list, address);
    }
  }

  /** What the dedupe pass removes: exactly the authenticated sessions that have a later
      authenticated session at their address; for every address the last one stays. */
  lemma {:induction false} KeepLastExact(list: seq<Session>, i: nat)
    requires Distinct(list) && i < |list|
    ensures list[i] in KeepLast(list)
       <==> !(list[i].authenticated && exists j :: i < j < |list| && Matches(ReceiverFor(list[i].address), list[j]))
  {
    var s := list[i];
    if i > 0 {
      KeepLastExact(list[1..], i - 1);
      assert forall j :: i < j < |list| ==> list[j] == list[1..][j - 1];
      assert list[0] != s;
      if s.authenticated && exists j :: i - 1 < j < |list[1..]| && Matches(ReceiverFor(s.address), list[1..][j]) {
        var j :| i - 1 < j < |list[1..]| && Matches(ReceiverFor(s.address), list[1..][j]);
        assert Matches(ReceiverFor(s.address), list[j + 1]);
      }
    } else {
      KeepLastMembers(list[1..]);
      assert forall j :: 0 < j < |list| ==> list[j] == list[1..][j - 1];
      assert s !in list[1..];
      if s.authenticated && exists t :: t in list[1..] && Matches(ReceiverFor(s.address), t) {
        var t :| t in list[1..] && Matches(ReceiverFor(s.address), t);
        var j :| 0 <= j < |list[1..]| && list[1..][j] == t;
        assert Matches(ReceiverFor(s.address), list[j + 1]);
      }
    }
  }

  // ----- Preservation -----

  lemma AllAuthenticated(cfg: Config, st: State)
    requires Good(cfg, st) && NoLogins(st.updates)
    ensures forall i :: 0 <= i < |st.sessions| && st.sessions[i].established ==> st.sessions[i].authenticated
  {
    forall i | 0 <= i < |st.sessions| && st.sessions[i].established ensures st.sessions[i].authenticated {
      var s := st.sessions[i];
      assert SessionOk(st, s);
      assert st.updates[s.boundUnder] in st.updates;
    }
  }

  lemma TurnWithoutLogin(cfg: Config, st: State, s: Session, o: DrainOracle)
    requires Shape(st) && s.authenticated
    ensures TurnOf(cfg, st, s, o).session.authenticated && TurnOf(cfg, st, s, o).session.address == s.address
  {
  }

  lemma DrainAtUnique(cfg: Config, st: State, i: nat, o: DrainOracle)
    requires Good(cfg, st) && NoLogins(st.updates) && i < |st.sessions| && Unique(st.sessions)
    ensures Unique(DrainAt(cfg, st, i, o).sessions)
  {
    AllAuthenticated(cfg, st);
    if NeedsTurn(st.sessions[i]) {
      TurnWithoutLogin(cfg, st, st.sessions[i], o);
      UniquePointwise(st.sessions, st.sessions[i := TurnOf(cfg, st, st.sessions[i], o).session]);
    }
  }

  lemma {:induction false} DrainUnique(cfg: Config, st: State, i: nat, oracles: seq<DrainOracle>)
    requires Good(cfg, st) && NoLogins(st.updates) && i <= |st.sessions| == |oracles|
    requires Unique(st.sessions)
    ensures Unique(DrainFrom(cfg, st, i, oracles).sessions)
    decreases |oracles| - i
  {
    if i < |oracles| && !st.stopped {
      DrainAtKeepsGood(cfg, st, i, oracles[i]);
      DrainAtUnique(cfg, st, i, oracles[i]);
      DrainUnique(cfg, DrainAt(cfg, st, i, oracles[i]), i + 1, oracles);
    }
  }

  lemma {:induction false} DrainUpdates(cfg: Config, st: State, i: nat, oracles: seq<DrainOracle>)
    requires Shape(st) && i <= |st.sessions| == |oracles|
    ensures DrainFrom(cfg, st, i, oracles).updates == st.updates
    ensures DrainFrom(cfg, st, i, oracles).control == st.control
    decreases |oracles| - i
  {
    if i < |oracles| && !st.stopped {
      DrainUpdates(cfg, DrainAt(cfg, st, i, oracles[i]), i + 1, oracles);
    }
  }

  lemma SwapRemoveUnique(list: seq<Session>, i: nat)
    requires Unique(list) && i < |list|
    ensures Unique(SwapRemove(list, i))
  {
    SwapRemoveIsRemoval(list, i);
    UniqueMonotone(SwapRemove(list, i), list);
  }

  lemma PushPendingUnique(list: seq<Session>, s: Session)
    requires Unique(list) && !s.authenticated
    ensures Unique(list + [s])
  {
    forall address ensures Count(ReceiverFor(address), list + [s]) <= 1 {
      CountPush(ReceiverFor(address), list, s);
    }
  }

  lemma AdmitIfRoomUnique(cfg: Config, st: State, peer: Peer, ip: Ipv4, acceptorOk: bool)
    requires Unique(st.sessions)
    ensures Unique(AdmitIfRoom(cfg, st, peer, ip, acceptorOk).state.sessions)
  {
    var oldest := OldestPending(st.sessions);
    var room := st.sessions;
    if Count(Pending, st.sessions) >= cfg.maxPending && oldest.Some? {
      SwapRemoveUnique(st.sessions, oldest.value);
      room := SwapRemove(st.sessions, oldest.value);
    }
    PushPendingUnique(room, NewSession(WithSessions(st, room), peer));
  }

  lemma BanSweepUnique(list: seq<Session>, ip: Ipv4)
    requires Unique(list)
    ensures Unique(Filter(NotPendingFrom(ip), list))
  {
    FilterIsRemoval(NotPendingFrom(ip), list);
    UniqueMonotone(Filter(NotPendingFrom(ip), list), list);
  }

  lemma LocateUnique(cfg: Config, st: State, peer: Peer, a: Admission)
    requires Unique(st.sessions)
    ensures Unique(Locate(cfg, st, peer, a).state.sessions)
  {
    var located := Locate(cfg, st, peer, a);
    if located.state.sessions == st.sessions {
      return;
    }
    var ip := PeerIp(peer).value;
    if a.decision.BannedNow? {
      BanSweepUnique(st.sessions, ip);
    } else {
      AdmitIfRoomUnique(cfg, st, peer, ip, a.acceptorOk);
    }
  }

  lemma ArrivedUnique(located: Located, bytes: Bytes, inject: InjectResult)
    requires located.index.Some? ==> located.index.value < |located.state.sessions|
    requires Unique(located.state.sessions)
    ensures Unique(Arrived(located, bytes, inject).sessions)
  {
    UniquePointwise(located.state.sessions, Arrived(located, bytes, inject).sessions);
  }

  /** A session that becomes established without being authenticated receives nothing. */
  lemma UniqueUnauthenticated(list: seq<Session>, i: nat, s: Session)
    requires i < |list| && !s.authenticated && Unique(list)
    ensures Unique(list[i := s])
  {
    forall address ensures Count(ReceiverFor(address), list[i := s]) <= 1 {
      CountUpdate(ReceiverFor(address), list, i, s);
    }
  }

  /** Once the duplicates of a newly authenticated session are gone, its address is unique. */
  lemma ReplacedUnique(list: seq<Session>, i: nat, s: Session)
    requires i < |list| && Unique(list) && Distinct(list[i := s]) && s.authenticated && s.established
    requires forall t :: t in list[i := s] && t.authenticated ==> t.established
    ensures Unique(Filter(NotDuplicateOf(s.address, s.peer), list[i := s]))
  {
    var mid := list[i := s];
    var kept := Filter(NotDuplicateOf(s.address, s.peer), mid);
    FilterIsRemoval(NotDuplicateOf(s.address, s.peer), mid);
    DistinctMonotone(kept, mid);
    assert mid[i] == s;
    forall address ensures Count(ReceiverFor(address), kept) <= 1 {
      var q := ReceiverFor(address);
      if address == s.address {
        forall t | t in kept && Matches(q, t) ensures t == s {
          assert t in mid && t.peer == s.peer;
        }
        CountAtMostOne(q, kept, s);
      } else {
        CountMonotone(q, kept, mid);
        CountUpdate(q, list, i, s);
      }
    }
  }

  lemma SettleUnique(cfg: Config, st: State, i: nat, h: HandshakeResult,
                     after: seq<Session>, st': State)
    requires Good(cfg, st) && i < |st.sessions| && !st.sessions[i].established && Unique(st.sessions) && h.Complete?
    requires SettleConnected(cfg, Count(Established, st.sessions), Establish(st, i, h), i,
                             after, st')
    ensures Unique(st'.sessions)
  {
    var s := Establish(st, i, h).sessions[i];
    var mid := st.sessions[i := s];
    EstablishDistinct(st.sessions, i, s);
    if Count(Established, st.sessions) >= cfg.maxClients && Count(DuplicateOf(s.address, s.peer), mid) == 0 {
      assert SwapRemove(mid, i) == SwapRemove(st.sessions, i);
      SwapRemoveUnique(st.sessions, i);
    } else if s.authenticated {
      AuthenticatedAreEstablished(cfg, st, i, s);
      ReplacedUnique(st.sessions, i, s);
      UniqueMonotone(after, Filter(NotDuplicateOf(s.address, s.peer), mid));
    } else {
      UniqueUnauthenticated(st.sessions, i, s);
    }
  }

  lemma AuthenticatedAreEstablished(cfg: Config, st: State, i: nat, s: Session)
    requires Good(cfg, st) && i < |st.sessions| && s.established
    ensures forall t :: t in st.sessions[i := s] && t.authenticated ==> t.established
  {
    forall t | t in st.sessions[i := s] && t.authenticated ensures t.established {
      var j :| 0 <= j < |st.sessions| && st.sessions[i := s][j] == t;
      assert SessionOk(st, st.sessions[j]);
    }
  }

  lemma ReceiveUnique(cfg: Config, st: State, d: Datagram, a: Admission, inject: InjectResult,
                      h: HandshakeResult, after: seq<Session>, st': State)
    requires Good(cfg, st) && ReceiveStep(cfg, st, d, a, inject, h, after, st') && Unique(st.sessions)
    ensures Unique(st'.sessions)
  {
    var located := Locate(cfg, st, d.peer, a);
    LocateUnique(cfg, st, d.peer, a);
    ArrivedUnique(located, d.bytes, inject);
    if located.index.Some? && !InjectRefused(located, inject) {
      LocateKeepsGood(cfg, st, d.peer, a);
      ArrivedKeepsGood(cfg, located, d.bytes, inject);
      LocateFrame(cfg, st, d.peer, a);
      HandshakeUnique(cfg, Arrived(located, d.bytes, inject), located.index.value, h, after, st');
    }
  }

  lemma HandshakeUnique(cfg: Config, st: State, i: nat, h: HandshakeResult, after: seq<Session>, st': State)
    requires Good(cfg, st) && i < |st.sessions| && Unique(st.sessions)
    requires FirstBinding(Current(st).bindings, h) && HandshakeStep(cfg, st, i, h, after, st')
    ensures Unique(st'.sessions)
  {
    if st.sessions[i].established {
    } else if h.Incomplete? {
      UniquePointwise(st.sessions, st'.sessions);
    } else if CertificateAccepted(cfg, Current(st).bindings, st.sessions[i].peer, h) {
      SettleUnique(cfg, st, i, h, after, st');
    } else {
      SwapRemoveUnique(st.sessions, i);
    }
  }

  lemma TickUnique(cfg: Config, st: State, disconnects: seq<Ipv4>, o: map<nat, RetransmitResult>,
                   mid: seq<Session>, st': State)
    requires TickStep(cfg, st, disconnects, o, mid, st') && Unique(st.sessions)
    ensures Unique(st'.sessions)
  {
    var left := DisconnectAll(st.sessions, disconnects);
    var kept := Retransmitted(left, o, st.now);
    var moved := RetransmitAll(left, o, st.now);
    DisconnectIsRemoval(st.sessions, disconnects);
    RetransmittedIsRemoval(left, o, st.now);
    UniqueMonotone(kept, st.sessions);
    RetransmitShape(left, o, st.now);
    UniquePointwise(kept, moved);
    FilterIsRemoval(Unexpired(st.now, cfg.maxLifetime), mid);
    UniqueMonotone(st'.sessions, moved);
  }

  lemma DecryptKeepsUnique(cfg: Config, st: State, step: Step, st': State)
    requires Good(cfg, st) && Next(cfg, st, step, st') && UniqueNow(st)
    requires step.Drain? || step.Dedupe? || step.Receive?
    ensures UniqueNow(st')
  {
    match step {
      case Drain(oracles) =>
        DrainUpdates(cfg, st, 0, oracles);
        if NoLogins(st.updates) { DrainUnique(cfg, st, 0, oracles); }
      case Dedupe => KeepLastUnique(st.sessions);
      case Receive(d, a, inject, h, after) => ReceiveUnique(cfg, st, d, a, inject, h, after, st');
    }
  }

  lemma RouteUnique(cfg: Config, st: State, packet: Bytes, o: FlushOracle)
    requires Unique(st.sessions)
    ensures Unique(Route(cfg, st, packet, o).sessions)
  {
    RouteShape(cfg, st, packet, o);
    UniquePointwise(st.sessions, Route(cfg, st, packet, o).sessions);
  }

  lemma RemovalsKeepUnique(cfg: Config, st: State, step: Step, st': State)
    requires Next(cfg, st, step, st') && Unique(st.sessions)
    requires step.UdpRemove? || step.ControlTick? || step.Retain?
    ensures Unique(st'.sessions)
  {
    match step {
      case UdpRemove(failed, after) =>
        FilterIsRemoval(SerialOutside(failed), st.sessions);
        UniqueMonotone(after, st.sessions);
      case ControlTick(disconnects, retransmit, mid) => TickUnique(cfg, st, disconnects, retransmit, mid, st');
      case Retain(update) =>
        FilterIsRemoval(Authorised(update, st.updates[|st.updates| - 1].logins), st.sessions);
        UniqueMonotone(st'.sessions, st.sessions);
    }
  }

  lemma NextKeepsUnique(cfg: Config, st: State, step: Step, st': State)
    requires Good(cfg, st) && Next(cfg, st, step, st') && UniqueNow(st)
    ensures UniqueNow(st')
  {
    hide Good, ReceiveStep, DrainFrom, KeepLast, NextWake, Matches, Count, RetransmitAll, PickReceiver, PacketAddresses;
    if step.Drain? || step.Dedupe? || step.Receive? {
      DecryptKeepsUnique(cfg, st, step, st');
    } else {
      assert NoLogins(st'.updates) ==> NoLogins(st.updates) by {
        assert forall u :: u in st.updates ==> u in st'.updates;
      }
      if Unique(st.sessions) {
        if step.RoutePacket? {
          RouteUnique(cfg, st, step.packet, step.flush);
        } else if step.FlushSessions? {
          UniquePointwise(st.sessions, st'.sessions);
        } else if step.UdpRemove? || step.ControlTick? || step.Retain? {
          RemovalsKeepUnique(cfg, st, step, st');
        }
      }
    }
  }

  lemma {:induction false} RunsAreUnique(cfg: Config, update: Update, states: seq<State>, steps: seq<Step>, k: nat)
    requires IsRun(cfg, update, states, steps) && k < |states|
    ensures UniqueNow(states[k])
  {
    if k > 0 {
      RunsAreGood(cfg, update, states, steps, k - 1);
      RunsAreUnique(cfg, update, states, steps, k - 1);
      NextKeepsUnique(cfg, states[k - 1], steps[k - 1], states[k]);
    }
  }

  // ----- Consequences -----

  /** Outside the window between a drain pass and its dedupe pass, no two authenticated sessions
      share a VPN address, whatever the other threads did. */
  lemma OneAuthenticatedPerAddress(cfg: Config, update: Update, states: seq<State>, steps: seq<Step>, k: nat)
    requires IsRun(cfg, update, states, steps) && k < |states| && !states[k].phase.Drained?
    ensures var list := states[k].sessions;
            forall i, j :: 0 <= i < j < |list| && list[i].authenticated && list[j].authenticated ==>
                             list[i].address != list[j].address
  {
    RunsAreUnique(cfg, update, states, steps, k);
    var list := states[k].sessions;
    forall i, j | 0 <= i < j < |list| && list[i].authenticated && list[j].authenticated
      ensures list[i].address != list[j].address
    {
      if list[i].address == list[j].address {
        CountTwo(ReceiverFor(list[i].address), list, i, j);
      }
    }
  }

  /** The table read as a map from VPN address to session, built in table order. */
  function AddressMap(list: seq<Session>): map<Ipv4, Session> {
    if list == [] then map[]
    else
      var s := list[|list| - 1];
      var m := AddressMap(list[..|list| - 1]);
      if s.authenticated then m[s.address := s] else m
  }

  /** While addresses are unique, encrypt's scan for the latest activity is a map lookup. */
  lemma {:induction false} RoutingIsLookup(list: seq<Session>, address: Ipv4)
    requires Unique(list)
    ensures PickReceiver(list, address).Some? <==> address in AddressMap(list)
    ensures address in AddressMap(list) ==> list[PickReceiver(list, address).value] == AddressMap(list)[address]
  {
    if list != [] {
      var n := |list| - 1;
      assert list == list[..n] + [list[n]];
      UniqueMonotone(list[..n], list);
      RoutingIsLookup(list[..n], address);
      var best := PickReceiver(list[..n], address);
      if Matches(ReceiverFor(address), list[n]) && best.Some? {
        CountTwo(ReceiverFor(address), list, best.value, n);
      }
    }
  }

  lemma {:induction false} LastIsNew(list: seq<Session>)
    requires list != [] && Unique(list)
    requires forall i :: 0 <= i < |list| && list[i].established ==> list[i].authenticated
    ensures list[|list| - 1].established ==> list[|list| - 1].address !in Addresses(list[..|list| - 1])
  {
    hide Count;
    var n := |list| - 1;
    if list[n].established && list[n].address in Addresses(list[..n]) {
      var s :| s in list[..n] && s.established && s.address == list[n].address;
      var i :| 0 <= i < n && list[i] == s;
      CountTwo(ReceiverFor(s.address), list, i, n);
    }
  }

  lemma {:induction false} CountUnique(list: seq<Session>)
    requires forall i :: 0 <= i < |list| && list[i].established ==> list[i].authenticated
    requires Unique(list)
    ensures Count(Established, list) == |Addresses(list)|
  {
    if list == [] {
      assert Addresses(list) == {};
    } else {
      hide Unique, Addresses;
      var n := |list| - 1;
      assert list == list[..n] + [list[n]];
      UniqueMonotone(list[..n], list);
      CountUnique(list[..n]);
      LastIsNew(list);
      AddressesPush(list[..n], list[n]);
    }
  }

  lemma AddressesPush(list: seq<Session>, s: Session)
    ensures Addresses(list + [s]) == Addresses(list) + if s.established then {s.address} else {}
  {
  }

  /** With no logins configured every established session is authenticated, there is one per
      address, and there are at most max_clients of them. */
  lemma WithoutLogins(cfg: Config, update: Update, states: seq<State>, steps: seq<Step>, k: nat)
    requires IsRun(cfg, update, states, steps) && k < |states| && NoLogins(states[k].updates)
    ensures Count(Established, states[k].sessions) == |Addresses(states[k].sessions)| <= cfg.maxClients
    ensures forall i :: 0 <= i < |states[k].sessions| && states[k].sessions[i].established ==>
                          states[k].sessions[i].authenticated
  {
    RunsAreGood(cfg, update, states, steps, k);
    RunsAreUnique(cfg, update, states, steps, k);
    AllAuthenticated(cfg, states[k]);
    CountUnique(states[k].sessions);
  }
}
