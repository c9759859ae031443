/** The server as an interleaving of the decrypt, encrypt, UDP-write and control threads.

    Every critical section under the `sessions` mutex is one step.  wolfSSL, the TUN device,
    the rate limiter's verdict and the clock are parameters of the steps and may be anything. */
module ServerMachine {
  import opened Net
  import opened InboundOrder
  import opened Login
  import opened SessionTable
  import opened Cidr

  type Prefix = p: nat | p <= 32

  datatype Policy = Policy(network: Ipv4, prefix: Prefix, allowBroadcast: bool, allowMulticast: bool)

  datatype Config = Config(maxClients: nat, maxPending: nat, verifySan: bool, maxLifetime: nat, policy: Policy)

  predicate ValidConfig(c: Config) {
    1 <= c.maxClients <= 1024 && 1 <= c.maxPending <= 256
  }

  predicate DestinationPermitted(policy: Policy, destination: Ipv4) {
    var broadcast := IsBroadcast(destination, policy.network, policy.prefix);
    var multicast := IsMulticast(destination);
    || (!broadcast && !multicast)
    || (broadcast && policy.allowBroadcast)
    || (multicast && policy.allowMulticast)
  }

  datatype Check = CheckError | Fails | Passes

  /** What was known of the client's certificate and its address on the network. */
  datatype Evidence = Evidence(peer: Peer, san: Check, source: Check)

  /** History.  `under` is the index of the configuration decrypt held at that moment;
      `Routed` packets came from the TUN device and were queued for the session. */
  datatype Event =
    | Connected(serial: nat, address: Ipv4, fingerprint: Fingerprint, under: nat, loginRequired: bool,
                evidence: Evidence)
    | LoginFrame(serial: nat, frame: Bytes, under: nat, accepted: bool)
    | TunWrite(serial: nat, packet: Bytes)
    | Routed(serial: nat, packet: Bytes)

  datatype Phase = Top | Drained | Deduped

  datatype ControlPhase = Ticking | Retained | Blocked(until: Instant)

  /** `updates` are the accepted configurations in order, the first one read at start-up; the
      control thread has retained by the last one, has sent the first `sent`, and decrypt
      works with `updates[taken]`. */
  datatype State = State(
    sessions: seq<Session>,
    nextSerial: nat,
    now: Instant,
    phase: Phase,
    stopped: bool,
    updates: seq<Update>,
    sent: nat,
    taken: nat,
    control: ControlPhase,
    wakePending: bool,
    log: seq<Event>)

  predicate Shape(st: State) {
    st.taken < st.sent <= |st.updates| <= st.sent + 1 && (st.control.Retained? <==> st.sent < |st.updates|)
  }

  function Current(st: State): Update
    requires Shape(st)
  {
    st.updates[st.taken]
  }

  predicate Initial(st: State, update: Update) {
    st == State([], 0, st.now, Top, false, [update], 1, 0, Ticking, false, [])
  }

  /** Replacing the table by fewer sessions drops the others, and a dropped session wakes the
      control thread. */
  function WithSessions(st: State, list: seq<Session>): State {
    st.(sessions := list, wakePending := st.wakePending || |list| < |st.sessions|)
  }

  function QueuePlain(s: Session, packet: Bytes): Session {
    s.(rawTx := (if |s.rawTx| == LIMIT then s.rawTx[1..] else s.rawTx) + [packet])
  }

  // ----- Decrypt: the drain pass -----

  datatype DrainOracle = DrainOracle(read: ReadResult, tunOk: bool, inject: InjectResult)

  datatype Flow = NextSession | RetryPending | StopServer

  datatype Turn = Turn(session: Session, events: seq<Event>, flow: Flow, wake: bool)

  function LoginTurn(s: Session, frame: Bytes, under: nat, expected: Option<Credentials>, now: Instant): Turn {
    var accepted := expected.Some? && LoginMatches(frame, expected.value);
    var r := s.(loginAttempted := true);
    var event := LoginFrame(s.serial, frame, under, accepted);
    if accepted then
      Turn(QueuePlain(r.(authenticated := true, lastActivity := now), AUTH_OK), [event], NextSession, true)
    else
      Turn(QueuePlain(r, AUTH_FAILED), [event], NextSession, false)
  }

  function TunnelTurn(policy: Policy, s: Session, packet: Bytes, tunOk: bool, now: Instant): Turn {
    match PacketAddresses(packet)
    case None => Turn(s, [], RetryPending, false)
    case Some((source, destination)) =>
      if source != s.address || !DestinationPermitted(policy, destination) then
        Turn(s, [], RetryPending, false)
      else if tunOk then
        Turn(s.(lastActivity := now), [TunWrite(s.serial, packet)], RetryPending, false)
      else
        Turn(s, [TunWrite(s.serial, packet)], StopServer, false)
  }

  /** What a record with plaintext does. */
  function PlainTurn(policy: Policy, under: nat, logins: map<Ipv4, Credentials>, now: Instant,
                     s: Session, packet: Bytes, tunOk: bool): Turn {
    if !s.authenticated then
      if s.loginAttempted then Turn(s, [], NextSession, false)
      else LoginTurn(s, packet, under, Lookup(logins, s.address), now)
    else if packet == KEEPALIVE_PACKET then
      Turn(QueuePlain(s.(lastActivity := now), KEEPALIVE_PACKET), [], NextSession, false)
    else TunnelTurn(policy, s, packet, tunOk, now)
  }

  function ReadTurn(policy: Policy, under: nat, logins: map<Ipv4, Credentials>, now: Instant,
                    s: Session, o: DrainOracle): Turn {
    var r := s.(inbound := AfterRead(s.inbound, o.read));
    if o.read.Data? && o.read.packet != [] then PlainTurn(policy, under, logins, now, r, o.read.packet, o.tunOk)
    else Turn(r, [], RetryPending, false)
  }

  predicate NeedsTurn(s: Session) {
    s.established && (s.inbound.drainPending || s.inbound.pending != [])
  }

  function DrainTurn(policy: Policy, under: nat, logins: map<Ipv4, Credentials>, now: Instant,
                     s: Session, o: DrainOracle): Turn {
    var turn := ReadTurn(policy, under, logins, now, s, o);
    if turn.flow.RetryPending? then turn.(session := turn.session.(inbound := Retry(turn.session.inbound, o.inject)))
    else turn
  }

  /** One session's turn. */
  function DrainAt(cfg: Config, st: State, i: nat, o: DrainOracle): State
    requires Shape(st) && i < |st.sessions|
  {
    if !NeedsTurn(st.sessions[i]) then st
    else
      var turn := DrainTurn(cfg.policy, st.taken, Current(st).logins, st.now, st.sessions[i], o);
      st.(sessions := st.sessions[i := turn.session],
          log := st.log + turn.events,
          wakePending := st.wakePending || turn.wake,
          stopped := turn.flow.StopServer?)
  }

  /** The pass from session i on; a TUN failure ends it. */
  function DrainFrom(cfg: Config, st: State, i: nat, oracles: seq<DrainOracle>): (r: State)
    requires Shape(st) && i <= |st.sessions| == |oracles|
    ensures Shape(r)
    decreases |oracles| - i
  {
    if i == |oracles| || st.stopped then st
    else DrainFrom(cfg, DrainAt(cfg, st, i, oracles[i]), i + 1, oracles)
  }

  // ----- Decrypt: the dedupe pass -----

  /** Keeps, for every address, only the last authenticated session in table order. */
  function KeepLast(list: seq<Session>): seq<Session> {
    if list == [] then []
    else if list[0].authenticated && exists t :: t in list[1..] && Matches(ReceiverFor(list[0].address), t) then
      KeepLast(list[1..])
    else [list[0]] + KeepLast(list[1..])
  }

  // ----- Decrypt: one datagram -----

  datatype Datagram = Datagram(peer: Peer, bytes: Bytes)

  datatype AcceptResult = AcceptError | NoCookie | CookieVerified

  datatype Decision = Allowed | BannedNow | Banned

  datatype Admission = Admission(banned: bool, accept: AcceptResult, decision: Decision, acceptorOk: bool)

  datatype Located = Located(state: State, index: Option<nat>, isNew: bool)

  /** Index of the first pending session with the least activity time. */
  function OldestPending(list: seq<Session>): (at: Option<nat>)
    ensures at.None? <==> forall j :: 0 <= j < |list| ==> list[j].established
    ensures at.Some? ==>
              && at.value < |list| && !list[at.value].established
              && (forall j :: 0 <= j < |list| && !list[j].established ==>
                  list[at.value].lastActivity <= list[j].lastActivity)
              && (forall j :: 0 <= j < at.value && !list[j].established ==>
                  list[at.value].lastActivity < list[j].lastActivity)
  {
    if list == [] then None
    else
      var n := |list| - 1;
      var best := OldestPending(list[..n]);
      if list[n].established then best
      else if best.Some? && list[best.value].lastActivity <= list[n].lastActivity then best
      else Some(n)
  }

  function NewSession(st: State, peer: Peer): Session {
    Session(st.nextSerial, peer, 0, None, false, false, false, None, st.now, None, EMPTY, [], 0, 0)
  }

  function Admit(st: State, peer: Peer): State {
    st.(sessions := st.sessions + [NewSession(st, peer)], nextSerial := st.nextSerial + 1, wakePending := true)
  }

  /** A peer whose cookie is verified and whose address is not banned: the three limits, then
      the eviction of the oldest pending session, then the new record. */
  function AdmitIfRoom(cfg: Config, st: State, peer: Peer, ip: Ipv4, acceptorOk: bool): (r: Located)
    ensures r.index.Some? ==> r.index.value < |r.state.sessions|
    ensures Shape(st) ==> Shape(r.state)
  {
    if Count(Established, st.sessions) >= cfg.maxClients then Located(st, None, false)
    else if Count(PendingFrom(ip), st.sessions) >= MAX_PENDING_PER_IP then Located(st, None, false)
    else
      var oldest := OldestPending(st.sessions);
      var room := if Count(Pending, st.sessions) >= cfg.maxPending && oldest.Some?
                  then SwapRemove(st.sessions, oldest.value) else st.sessions;
      var roomy := WithSessions(st, room);
      if !acceptorOk then Located(roomy.(stopped := true), None, false)
      else Located(Admit(roomy, peer), Some(|room|), true)
  }

  /** The session a datagram belongs to, admitting a new one when every limit allows it. */
  function Locate(cfg: Config, st: State, peer: Peer, a: Admission): (r: Located)
    ensures r.index.Some? ==> r.index.value < |r.state.sessions|
    ensures Shape(st) ==> Shape(r.state)
  {
    match PositionOf(peer, st.sessions)
    case Some(at) => Located(st, Some(at), false)
    case None =>
      match PeerIp(peer)
      case None => Located(st, None, false)
      case Some(ip) =>
        if a.banned || a.accept.NoCookie? then Located(st, None, false)
        else if a.accept.AcceptError? then Located(st.(stopped := !a.acceptorOk), None, false)
        else
          match a.decision
          case Banned => Located(st, None, false)
          case BannedNow => Located(WithSessions(st, Filter(NotPendingFrom(ip), st.sessions)), None, false)
          case Allowed => AdmitIfRoom(cfg, st, peer, ip, a.acceptorOk)
  }

  function ArriveAt(st: State, i: nat, bytes: Bytes, result: InjectResult): State
    requires i < |st.sessions|
  {
    var s := st.sessions[i];
    st.(sessions := st.sessions[i := s.(inbound := Arrive(s.inbound, bytes, result))])
  }

  datatype HandshakeResult =
    | HandshakeError
    | Incomplete(timeout: nat)
    | NoFingerprint
    | Complete(fingerprint: Fingerprint, first: Ipv4, san: Check, source: Check)

  /** `first` is the first binding with the fingerprint in HashMap order. */
  predicate FirstBinding(bindings: map<Ipv4, Fingerprint>, h: HandshakeResult) {
    h.Complete? && h.fingerprint in bindings.Values ==> h.first in bindings && bindings[h.first] == h.fingerprint
  }

  predicate CertificateAccepted(cfg: Config, bindings: map<Ipv4, Fingerprint>, peer: Peer, h: HandshakeResult) {
    && h.Complete?
    && h.fingerprint in bindings.Values
    && (cfg.verifySan ==> h.san.Passes?)
    && PeerIp(peer).Some?
    && h.source.Passes?
  }

  function EstablishedSession(st: State, s: Session, fingerprint: Fingerprint, address: Ipv4): Session
    requires Shape(st)
  {
    var authenticated := address !in Current(st).logins;
    QueuePlain(
      s.(address := address, fingerprint := Some(fingerprint), established := true, authenticated := authenticated,
         establishedAt := Some(st.now), dtlsDeadline := None,
         boundUnder := st.taken, retainedAfter := |st.updates| - 1),
      if authenticated then AUTH_OK else AUTH_REQUIRED)
  }

  function Establish(st: State, i: nat, h: HandshakeResult): State
    requires Shape(st) && i < |st.sessions| && h.Complete?
  {
    var s := EstablishedSession(st, st.sessions[i], h.fingerprint, h.first);
    st.(sessions := st.sessions[i := s],
        wakePending := true,
        log := st.log + [Connected(s.serial, h.first, h.fingerprint, st.taken, !s.authenticated,
                                   Evidence(s.peer, h.san, h.source))])
  }

  /** After the handshake the new session is dropped when the server is full and it replaces
      nobody; a session that is authenticated at once replaces the others at its address.
      `after` is the order the swap_remove loop leaves behind. */
  ghost predicate SettleConnected(cfg: Config, before: nat, st: State, i: nat, after: seq<Session>, st': State)
    requires i < |st.sessions|
  {
    var s := st.sessions[i];
    if before >= cfg.maxClients && Count(DuplicateOf(s.address, s.peer), st.sessions) == 0 then
      st' == WithSessions(st, SwapRemove(st.sessions, i))
    else if s.authenticated then
      && multiset(after) == multiset(Filter(NotDuplicateOf(s.address, s.peer), st.sessions))
      && st' == WithSessions(st, after)
    else
      st' == st
  }

  ghost predicate HandshakeStep(cfg: Config, st: State, i: nat, h: HandshakeResult, after: seq<Session>, st': State)
    requires Shape(st) && i < |st.sessions|
  {
    if st.sessions[i].established then st' == st
    else if h.Incomplete? then
      st' == st.(sessions := st.sessions[i := st.sessions[i].(dtlsDeadline := Some(st.now + h.timeout))],
                 wakePending := true)
    else if CertificateAccepted(cfg, Current(st).bindings, st.sessions[i].peer, h) then
      SettleConnected(cfg, Count(Established, st.sessions), Establish(st, i, h), i, after, st')
    else
      st' == WithSessions(st, SwapRemove(st.sessions, i))
  }

  /** wolfSSL refused the datagram outright: the loop goes on to the next one. */
  predicate InjectRefused(located: Located, inject: InjectResult)
    requires located.index.Some? ==> located.index.value < |located.state.sessions|
  {
    && located.index.Some? && !located.isNew
    && located.state.sessions[located.index.value].inbound.pending == []
    && inject.Refusal?
  }

  function Arrived(located: Located, bytes: Bytes, inject: InjectResult): State
    requires located.index.Some? ==> located.index.value < |located.state.sessions|
  {
    (if located.index.None? || located.isNew then located.state
     else ArriveAt(located.state, located.index.value, bytes, inject)).(phase := Top)
  }

  ghost predicate ReceiveStep(cfg: Config, st: State, d: Datagram, a: Admission, inject: InjectResult,
                              h: HandshakeResult, after: seq<Session>, st': State)
    requires Shape(st)
  {
    var located := Locate(cfg, st, d.peer, a);
    var arrived := Arrived(located, d.bytes, inject);
    if located.index.None? || InjectRefused(located, inject) then st' == arrived
    else
      FirstBinding(Current(st).bindings, h) && HandshakeStep(cfg, arrived, located.index.value, h, after, st')
  }

  // ----- Encrypt -----

  /** What a visit to a session's plaintext queue did: how many packets left it, and whether
      one of them was written. */
  datatype Visit = Visit(gone: nat, sent: bool)

  type FlushOracle = map<nat, Visit>

  function FlushOne(s: Session, o: FlushOracle, now: Instant): Session {
    if s.serial !in o then s
    else
      var visit := o[s.serial];
      s.(rawTx := if visit.gone <= |s.rawTx| then s.rawTx[visit.gone..] else [],
         lastActivity := if visit.sent then now else s.lastActivity)
  }

  function FlushAll(list: seq<Session>, o: FlushOracle, now: Instant): (r: seq<Session>)
    ensures |r| == |list|
    ensures forall i :: 0 <= i < |list| ==> r[i] == FlushOne(list[i], o, now)
  {
    if list == [] then []
    else FlushAll(list[..|list| - 1], o, now) + [FlushOne(list[|list| - 1], o, now)]
  }

  function QueueAuthenticated(list: seq<Session>, packet: Bytes): (r: seq<Session>)
    ensures |r| == |list|
    ensures forall i :: 0 <= i < |list| ==>
            r[i] == if list[i].authenticated then QueuePlain(list[i], packet) else list[i]
  {
    if list == [] then []
    else
      var s := list[|list| - 1];
      QueueAuthenticated(list[..|list| - 1], packet) + [if s.authenticated then QueuePlain(s, packet) else s]
  }

  function RoutedTo(list: seq<Session>, packet: Bytes): seq<Event> {
    if list == [] then []
    else
      var s := list[|list| - 1];
      RoutedTo(list[..|list| - 1], packet) + if s.authenticated then [Routed(s.serial, packet)] else []
  }

  /** `max_by_key(last_activity)` over the authenticated sessions at the address: the last one
      among those with the greatest time. */
  function PickReceiver(list: seq<Session>, address: Ipv4): (at: Option<nat>)
    ensures at.None? <==> forall j :: 0 <= j < |list| ==> !(list[j].authenticated && list[j].address == address)
    ensures at.Some? ==> at.value < |list| && list[at.value].authenticated && list[at.value].address == address
    ensures at.Some? ==> forall j :: 0 <= j < |list| && list[j].authenticated && list[j].address == address ==>
                                       if j <= at.value then list[j].lastActivity <= list[at.value].lastActivity
                                       else list[j].lastActivity < list[at.value].lastActivity
  {
    if list == [] then None
    else
      var n := |list| - 1;
      var best := PickReceiver(list[..n], address);
      if !Matches(ReceiverFor(address), list[n]) then best
      else if best.Some? && list[n].lastActivity < list[best.value].lastActivity then best
      else Some(n)
  }

  function RouteToAll(st: State, packet: Bytes, o: FlushOracle): State {
    st.(sessions := FlushAll(QueueAuthenticated(st.sessions, packet), o, st.now),
        log := st.log + RoutedTo(st.sessions, packet))
  }

  function RouteToOne(st: State, destination: Ipv4, packet: Bytes, o: FlushOracle): State {
    match PickReceiver(st.sessions, destination)
    case None => st
    case Some(i) =>
      st.(sessions := st.sessions[i := FlushOne(QueuePlain(st.sessions[i], packet), o, st.now)],
          log := st.log + [Routed(st.sessions[i].serial, packet)])
  }

  /** One packet from the TUN device. */
  function Route(cfg: Config, st: State, packet: Bytes, o: FlushOracle): State {
    match PacketAddresses(packet)
    case None => st
    case Some((_, destination)) =>
      var p := cfg.policy;
      var broadcast := IsBroadcast(destination, p.network, p.prefix);
      var multicast := IsMulticast(destination);
      if (broadcast && p.allowBroadcast) || (multicast && p.allowMulticast) then RouteToAll(st, packet, o)
      else if broadcast || multicast then st
      else RouteToOne(st, destination, packet, o)
  }

  // ----- Control -----

  datatype RetransmitResult = RetransmitError | NextTimeout(timeout: nat)

  predicate RetransmitDue(s: Session, now: Instant) {
    !s.established && s.dtlsDeadline.Some? && s.dtlsDeadline.value <= now
  }

  function RetransmitOne(s: Session, o: map<nat, RetransmitResult>, now: Instant): Option<Session> {
    if !RetransmitDue(s, now) then Some(s)
    else if s.serial in o && o[s.serial].NextTimeout? then
      Some(s.(dtlsDeadline := Some(now + o[s.serial].timeout)))
    else None
  }

  function RetransmitAll(list: seq<Session>, o: map<nat, RetransmitResult>, now: Instant): seq<Session> {
    if list == [] then []
    else
      var n := |list| - 1;
      RetransmitAll(list[..n], o, now)
      + match RetransmitOne(list[n], o, now)
        case None => []
        case Some(s) => [s]
  }

  function DisconnectAll(list: seq<Session>, addresses: seq<Ipv4>): seq<Session>
    decreases |addresses|
  {
    if addresses == [] then list
    else DisconnectAll(Filter(NotConnectedAt(addresses[0]), list), addresses[1..])
  }

  ghost predicate TickStep(cfg: Config, st: State, disconnects: seq<Ipv4>, o: map<nat, RetransmitResult>,
                           mid: seq<Session>, st': State) {
    && multiset(mid) == multiset(RetransmitAll(DisconnectAll(st.sessions, disconnects), o, st.now))
    && st' == WithSessions(st, Filter(Unexpired(st.now, cfg.maxLifetime), mid))
  }

  /** First phase of a reload: the control thread's own retain. */
  function RetainBy(st: State, update: Update): State
    requires Shape(st)
  {
    var previous := st.updates[|st.updates| - 1];
    WithSessions(st, Filter(Authorised(update, previous.logins), st.sessions))
      .(updates := st.updates + [update], control := Retained)
  }

  /** Every instant at which the control thread has something to do for a session. */
  function Deadlines(s: Session, maxLifetime: nat): set<Instant> {
    {s.lastActivity + IdleLimit(s)}
    + (if s.dtlsDeadline.Some? then {s.dtlsDeadline.value} else {})
    + (if s.establishedAt.Some? then {s.establishedAt.value + maxLifetime} else {})
  }

  function Min(a: nat, b: nat): nat { if a <= b then a else b }

  function EarliestDeadline(s: Session, maxLifetime: nat): Instant {
    var idle := s.lastActivity + IdleLimit(s);
    var life := if s.establishedAt.Some? then Min(idle, s.establishedAt.value + maxLifetime) else idle;
    if s.dtlsDeadline.Some? then Min(life, s.dtlsDeadline.value) else life
  }

  /** `base` is the next configuration reload or the first control-command timeout. */
  function NextWake(list: seq<Session>, maxLifetime: nat, base: Instant): Instant {
    if list == [] then base
    else Min(NextWake(list[..|list| - 1], maxLifetime, base), EarliestDeadline(list[|list| - 1], maxLifetime))
  }

  // ----- The machine -----

  datatype Step =
    | Advance(to: Instant)
    | Drain(oracles: seq<DrainOracle>)
    | Dedupe
    | TakeUpdate
    | NoDatagram
    | Receive(datagram: Datagram, admission: Admission, inject: InjectResult, handshake: HandshakeResult,
              after: seq<Session>)
    | RoutePacket(packet: Bytes, flush: FlushOracle)
    | FlushSessions(flush: FlushOracle)
    | UdpRemove(failed: set<nat>, after: seq<Session>)
    | ControlTick(disconnects: seq<Ipv4>, retransmit: map<nat, RetransmitResult>, mid: seq<Session>)
    | Retain(update: Update)
    | SendUpdate
    | Block(base: Instant)
    | Unblock

  ghost predicate Next(cfg: Config, st: State, step: Step, st': State) {
    && Shape(st)
    && match step
       case Advance(to) => st.now <= to && st' == st.(now := to)
       case Drain(oracles) =>
         && st.phase.Top? && !st.stopped && |oracles| == |st.sessions|
         && st' == DrainFrom(cfg, st, 0, oracles).(phase := Drained)
       case Dedupe =>
         st.phase.Drained? && !st.stopped && st' == WithSessions(st, KeepLast(st.sessions)).(phase := Deduped)
       case TakeUpdate =>
         st.phase.Deduped? && !st.stopped && st.taken + 1 < st.sent && st' == st.(taken := st.taken + 1)
       case NoDatagram => st.phase.Deduped? && !st.stopped && st' == st.(phase := Top)
       case Receive(d, a, inject, h, after) =>
         st.phase.Deduped? && !st.stopped && ReceiveStep(cfg, st, d, a, inject, h, after, st')
       case RoutePacket(packet, flush) => st' == Route(cfg, st, packet, flush)
       case FlushSessions(flush) => st' == st.(sessions := FlushAll(st.sessions, flush, st.now))
       case UdpRemove(failed, after) =>
         && multiset(after) == multiset(Filter(SerialOutside(failed), st.sessions))
         && (|after| == |st.sessions| ==> after == st.sessions) // without a failure nothing moves
         && st' == WithSessions(st, after)
       case ControlTick(disconnects, retransmit, mid) =>
         st.control.Ticking? && TickStep(cfg, st, disconnects, retransmit, mid, st')
       case Retain(update) => st.control.Ticking? && st' == RetainBy(st, update)
       case SendUpdate => st.control.Retained? && st' == st.(sent := |st.updates|, control := Ticking)
       case Block(base) =>
         st.control.Ticking? && st' == st.(control := Blocked(NextWake(st.sessions, cfg.maxLifetime, base)))
       case Unblock => st.control.Blocked? && st' == st.(control := Ticking, wakePending := false)
  }

  /** A run of the server from start-up. */
  ghost predicate IsRun(cfg: Config, update: Update, states: seq<State>, steps: seq<Step>) {
    && ValidConfig(cfg)
    && |states| == |steps| + 1
    && Initial(states[0], update)
    && forall k :: 0 <= k < |steps| ==> Next(cfg, states[k], steps[k], states[k + 1])
  }
}
