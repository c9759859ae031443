/** The server's per-session inbound side: `drain_pending` and `pending_inject`.

    A datagram that wolfSSL cannot take yet (APP_DATA_READY) waits in `pending`; later
    datagrams queue behind it, up to LIMIT.  `arrived`, `fates`, `injected` and `contacts` are the
    history the theorems speak about. */
module InboundOrder {
  import opened Net
  import opened Selection

  const LIMIT := 512

  datatype InjectResult = Accepted | AppDataReady | Refusal

  datatype ReadResult = Data(packet: Bytes) | WantRead | WantWrite | ReadError

  /** What wolfSSL was asked for the session, and its answer. */
  datatype Contact = Inject(injected: InjectResult) | Read(read: ReadResult)

  datatype Fate = Injected | Waiting | Refused | Dropped

  datatype Inbound = Inbound(
    drainPending: bool,
    pending: seq<Bytes>,
    arrived: seq<Bytes>,
    fates: seq<Fate>,
    injected: seq<Bytes>,
    contacts: seq<Contact>)

  const EMPTY := Inbound(false, [], [], [], [], [])

  /** One read of decrypted data; an empty record counts as none. */
  function AfterRead(b: Inbound, read: ReadResult): Inbound {
    b.(drainPending := read.WantWrite? || (read.Data? && read.packet != []), contacts := b.contacts + [Read(read)])
  }

  /** A datagram for an existing session (decrypt.rs: the `!new_session` branch). */
  function Arrive(b: Inbound, datagram: Bytes, result: InjectResult): Inbound {
    var arrived := b.arrived + [datagram];
    var contacts := b.contacts + [Inject(result)];
    if b.pending != [] then
      if |b.pending| >= LIMIT then
        b.(arrived := arrived, fates := b.fates + [Dropped])
      else
        b.(pending := b.pending + [datagram], arrived := arrived, fates := b.fates + [Waiting])
    else
      match result
      case Accepted =>
        b.(drainPending := true, arrived := arrived, fates := b.fates + [Injected],
           injected := b.injected + [datagram], contacts := contacts)
      case AppDataReady =>
        b.(drainPending := true, pending := [datagram], arrived := arrived, fates := b.fates + [Waiting],
           contacts := contacts)
      case Refusal =>
        b.(arrived := arrived, fates := b.fates + [Refused], contacts := contacts)
  }

  /** Index of the oldest waiting arrival. */
  function FirstWaiting(fates: seq<Fate>): (i: nat)
    requires Waiting in fates
    ensures i < |fates| && fates[i] == Waiting
    ensures forall j :: 0 <= j < i ==> fates[j] != Waiting
  {
    if fates[0] == Waiting then 0 else 1 + FirstWaiting(fates[1..])
  }

  function Settle(fates: seq<Fate>, fate: Fate): seq<Fate> {
    if Waiting in fates then fates[FirstWaiting(fates) := fate] else fates
  }

  /** The retry of the front datagram at the end of one session's turn in the drain pass. */
  function Retry(b: Inbound, result: InjectResult): Inbound {
    if b.pending == [] then b
    else
      var contacts := b.contacts + [Inject(result)];
      match result
      case Accepted =>
        b.(drainPending := true, pending := b.pending[1..], fates := Settle(b.fates, Injected),
           injected := b.injected + [b.pending[0]], contacts := contacts)
      case AppDataReady => b.(drainPending := true, contacts := contacts)
      case Refusal => b.(pending := b.pending[1..], fates := Settle(b.fates, Refused), contacts := contacts)
  }

  /** Injection order equals arrival order, nothing is injected twice, a waiting datagram goes
      before every later one, and each arrival has exactly one fate. */
  ghost predicate Ordered(b: Inbound) {
    && |b.fates| == |b.arrived|
    && |b.pending| <= LIMIT
    && b.injected == Select(b.arrived, b.fates, Injected)
    && b.pending == Select(b.arrived, b.fates, Waiting)
    && forall i, j :: 0 <= i < j < |b.fates| && b.fates[i] == Waiting ==> b.fates[j] != Injected
  }

  // ----- When there is something to read -----

  /** wolfSSL took a datagram or said that it has data, or a read was not the last one. */
  predicate Raises(c: Contact) {
    match c
    case Inject(result) => result.Accepted? || result.AppDataReady?
    case Read(Data(packet)) => packet != []
    case Read(read) => read.WantWrite?
  }

  /** A read found nothing, or failed. */
  predicate Lowers(c: Contact) {
    c.Read? && (c.read.WantRead? || c.read.ReadError? || c.read == Data([]))
  }

  /** Since the last read that found nothing, wolfSSL has got or announced something. */
  ghost predicate ReadDue(contacts: seq<Contact>) {
    exists i :: 0 <= i < |contacts| && Raises(contacts[i]) && forall j :: i < j < |contacts| ==> !Lowers(contacts[j])
  }

  ghost predicate DrainOk(b: Inbound) {
    b.drainPending <==> ReadDue(b.contacts)
  }

  lemma {:induction false} ReadDuePush(contacts: seq<Contact>, c: Contact)
    ensures ReadDue(contacts + [c]) <==> Raises(c) || (ReadDue(contacts) && !Lowers(c))
  {
    var more := contacts + [c];
    if Raises(c) {
      assert Raises(more[|contacts|]);
    }
    if ReadDue(contacts) && !Lowers(c) {
      var i :| 0 <= i < |contacts| && Raises(contacts[i]) && forall j :: i < j < |contacts| ==> !Lowers(contacts[j]);
      assert Raises(more[i]) && forall j :: i < j < |more| ==> !Lowers(more[j]);
    }
    if ReadDue(more) && !Raises(c) {
      var i :| 0 <= i < |more| && Raises(more[i]) && forall j :: i < j < |more| ==> !Lowers(more[j]);
      assert Raises(contacts[i]) && !Lowers(more[|contacts|]);
      assert forall j :: i < j < |contacts| ==> !Lowers(more[j]) && more[j] == contacts[j];
    }
  }

  lemma {:induction false} ReadKeepsDrain(b: Inbound, read: ReadResult)
    ensures DrainOk(AfterRead(b, read))
  {
    hide ReadDue;
    ReadDuePush(b.contacts, Read(read));
  }

  lemma {:induction false} InjectKeepsDrain(b: Inbound, datagram: Bytes, result: InjectResult)
    requires DrainOk(b)
    ensures DrainOk(Arrive(b, datagram, result)) && DrainOk(Retry(b, result))
  {
    hide ReadDue, Settle;
    ReadDuePush(b.contacts, Inject(result));
  }

  lemma {:induction false} NothingDue()
    ensures DrainOk(EMPTY)
  {
  }

  // ----- Order -----

  /** Changing the fate of the oldest waiting arrival takes it off the front of the waiting
      list and puts it at its place in arrival order among those of its new fate. */
  lemma {:induction false} SelectSettle(arrived: seq<Bytes>, fates: seq<Fate>, i: nat, f: Fate)
    requires |arrived| == |fates| && i < |fates| && fates[i] == Waiting && f != Waiting
    requires forall j :: 0 <= j < i ==> fates[j] != Waiting
    requires forall j :: i < j < |fates| ==> fates[j] != Injected
    ensures Select(arrived, fates, Waiting) != []
    ensures Select(arrived, fates[i := f], Waiting) == Select(arrived, fates, Waiting)[1..]
    ensures Select(arrived, fates, Waiting)[0] == arrived[i]
    ensures Select(arrived, fates[i := f], Injected)
         == Select(arrived, fates, Injected) + if f == Injected then [arrived[i]] else []
  {
    var n := |arrived| - 1;
    if i == n {
      SelectNone(arrived[..n], fates[..n], Waiting);
      assert fates[i := f][..n] == fates[..n];
    } else {
      SelectSettle(arrived[..n], fates[..n], i, f);
      assert fates[i := f][..n] == fates[..n][i := f];
    }
  }

  lemma ArriveOrdered(b: Inbound, datagram: Bytes, result: InjectResult)
    requires Ordered(b)
    ensures Ordered(Arrive(b, datagram, result))
  {
    hide Select;
    var c := Arrive(b, datagram, result);
    SelectPush(b.arrived, b.fates, Injected, datagram, c.fates[|b.fates|]);
    SelectPush(b.arrived, b.fates, Waiting, datagram, c.fates[|b.fates|]);
    SelectNone(b.arrived, b.fates, Waiting);
  }

  lemma RetryOrdered(b: Inbound, result: InjectResult)
    requires Ordered(b)
    ensures Ordered(Retry(b, result))
  {
    SelectNone(b.arrived, b.fates, Waiting);
    if b.pending != [] {
      var i := FirstWaiting(b.fates);
      SelectSettle(b.arrived, b.fates, i, Injected);
      SelectSettle(b.arrived, b.fates, i, Refused);
    }
  }
}
