/** The client's decrypt worker and its producer, interleaved: encrypted_rx, the progress signal,
    the datagram waiting for wolfSSL and the drain flag.

    Datagrams are numbered in the order in which the UDP reader pushes them. */
module ClientDecrypt {
  import opened Net
  import Ledger

  const CAPACITY := 512

  /** The UDP reader, and the other threads that use the same progress signal. */
  datatype Notifier = UdpReader | Other

  datatype Duty = Idle | OwesNotify | OwesWake

  datatype Pc =
    | Top
    | Read(observed: nat)
    | Take(observed: nat)
    | Inject(observed: nat)
    | Wait(observed: nat, empty: bool)
    | Asleep(observed: nat, empty: bool)
    | Stopped

  datatype ReadResult = Data | WantRead | WantWrite | ReadError

  datatype InjectResult = Accepted | AppDataReady | Refused

  /** What has passed between the worker and wolfSSL. */
  datatype Contact = Injected(datagram: nat, answer: InjectResult) | WasRead(result: ReadResult)

  datatype State = State(
    queue: seq<nat>,
    next: nat,
    evicted: set<nat>,
    generation: nat,
    reader: Duty,
    other: Duty,
    pc: Pc,
    pending: Option<nat>,
    drain: bool,
    injected: seq<nat>,
    contacts: seq<Contact>)

  datatype Action =
    | Receive
    | Notify(from: Notifier)
    | Wake(from: Notifier)
    | Iterate(read: ReadResult, inject: InjectResult)

  const START := State([], 0, {}, 0, Idle, Idle, Top, None, false, [], [])

  function DutyOf(st: State, from: Notifier): Duty {
    if from.UdpReader? then st.reader else st.other
  }

  function WithDuty(st: State, from: Notifier, duty: Duty): State {
    if from.UdpReader? then st.(reader := duty) else st.(other := duty)
  }

  predicate Enabled(st: State, action: Action) {
    match action
    case Receive => st.reader.Idle?
    case Notify(from) => DutyOf(st, from) == (if from.UdpReader? then OwesNotify else Idle)
    case Wake(from) => DutyOf(st, from).OwesWake?
    case Iterate(_, _) => !st.pc.Asleep? && !st.pc.Stopped?
  }

  /** The push of a full queue drops its oldest datagram. */
  function Received(st: State): State {
    var full := |st.queue| == CAPACITY;
    st.(queue := (if full then st.queue[1..] else st.queue) + [st.next],
        evicted := if full then st.evicted + {st.queue[0]} else st.evicted,
        next := st.next + 1,
        reader := OwesNotify)
  }

  function ReadOnce(st: State, o: nat, read: ReadResult): State {
    if !st.drain then st.(pc := Take(o))
    else
      var met := st.(contacts := st.contacts + [WasRead(read)]);
      match read
      case Data => met.(pc := Top)
      case WantRead => met.(drain := false, generation := st.generation + 1, pc := Take(o))
      case WantWrite => met.(pc := Wait(o, false))
      case ReadError => met.(pc := Stopped)
  }

  function TakeOne(st: State, o: nat): State {
    if st.pending.Some? then st.(pc := Inject(o))
    else if st.queue == [] then st.(pc := Wait(o, true))
    else st.(pending := Some(st.queue[0]), queue := st.queue[1..], pc := Inject(o))
  }

  function InjectOne(st: State, inject: InjectResult): State
    requires st.pending.Some?
  {
    var met := st.(contacts := st.contacts + [Injected(st.pending.value, inject)]);
    match inject
    case Accepted => met.(pending := None, drain := true, injected := st.injected + [st.pending.value], pc := Top)
    case AppDataReady => met.(drain := true, pc := Top)
    case Refused => met.(pc := Stopped)
  }

  /** The worker's loop, one queue, signal or wolfSSL operation at a time. */
  function Iterated(st: State, read: ReadResult, inject: InjectResult): State {
    match st.pc
    case Top => st.(pc := Read(st.generation))
    case Read(o) => ReadOnce(st, o, read)
    case Take(o) => TakeOne(st, o)
    case Inject(_) => if st.pending.Some? then InjectOne(st, inject) else st.(pc := Stopped)
    case Wait(o, empty) => st.(pc := if st.generation == o then Asleep(o, empty) else Top)
    case _ => st
  }

  function Apply(st: State, action: Action): State
    requires Enabled(st, action)
  {
    match action
    case Receive => Received(st)
    case Notify(from) => WithDuty(st.(generation := st.generation + 1), from, OwesWake)
    case Wake(from) =>
      WithDuty(if st.pc.Asleep? then st.(pc := Wait(st.pc.observed, st.pc.empty)) else st, from, Idle)
    case Iterate(read, inject) => Iterated(st, read, inject)
  }

  ghost predicate IsRun(states: seq<State>, actions: seq<Action>) {
    && |states| == |actions| + 1
    && states[0] == START
    && forall k :: 0 <= k < |actions| ==>
      Enabled(states[k], actions[k]) && states[k + 1] == Apply(states[k], actions[k])
  }

  // ----- What every step keeps -----

  function Waiting(pending: Option<nat>): seq<nat> {
    match pending case None => [] case Some(d) => [d]
  }

  /** The datagrams in the order in which they reach wolfSSL, as far as it is settled. */
  function Line(st: State): seq<nat> {
    st.injected + Waiting(st.pending) + st.queue
  }

  /** Every datagram received is in one place, and those not evicted keep their order. */
  ghost predicate Accounted(st: State) {
    Ledger.Settled(Line(st), st.evicted, st.next) && |st.queue| <= CAPACITY
  }

  ghost predicate Rested(st: State) {
    match st.pc
    case Wait(o, empty) =>
      && o <= st.generation
      && (empty ==> st.pending.None? && (st.generation == o ==> st.queue == [] || st.reader.OwesNotify?))
    case Asleep(o, empty) =>
      && o <= st.generation
      && (empty ==> st.pending.None? && (st.generation == o ==> st.queue == [] || st.reader.OwesNotify?))
      && (st.generation > o ==> st.reader.OwesWake? || st.other.OwesWake?)
    case Read(o) => o <= st.generation
    case Take(o) => o <= st.generation
    case Inject(o) => o <= st.generation && st.pending.Some?
    case _ => true
  }

  lemma {:induction false} ReceivedAccounted(st: State)
    requires Accounted(st)
    ensures Accounted(Received(st))
  {
    hide Ledger.Settled;
    var front := st.injected + Waiting(st.pending);
    if |st.queue| == CAPACITY {
      var back := st.queue[1..];
      assert Line(st) == front + [st.queue[0]] + back;
      Ledger.SettledLose(front, st.queue[0], back, st.evicted, st.next);
      Ledger.SettledPush(front + back, st.evicted + {st.queue[0]}, st.next);
      assert Line(Received(st)) == front + back + [st.next];
    } else {
      Ledger.SettledPush(Line(st), st.evicted, st.next);
      assert Line(Received(st)) == Line(st) + [st.next];
    }
  }

  lemma {:induction false} IteratedAccounted(st: State, read: ReadResult, inject: InjectResult)
    requires Accounted(st) && Rested(st)
    ensures Accounted(Iterated(st, read, inject))
  {
    hide Ledger.Settled;
    if st.pc.Take? && st.pending.None? && st.queue != [] {
      TakenKeepsLine(st.injected, st.queue);
    } else if st.pc.Inject? {
      assert st.injected + [st.pending.value] + [] == st.injected + [st.pending.value];
    }
  }

  lemma {:induction false} TakenKeepsLine(injected: seq<nat>, queue: seq<nat>)
    requires queue != []
    ensures injected + [] + queue == injected + [queue[0]] + queue[1..]
  {
  }

  lemma {:induction false} ApplyKeepsRested(st: State, action: Action)
    requires Rested(st) && Enabled(st, action)
    ensures Rested(Apply(st, action))
  {
  }

  lemma {:induction false} RunsAreSound(states: seq<State>, actions: seq<Action>, k: nat)
    requires IsRun(states, actions) && k < |states|
    ensures Accounted(states[k]) && Rested(states[k])
  {
    hide Ledger.Settled, Iterated;
    if k == 0 {
      NothingReceived();
    } else {
      RunsAreSound(states, actions, k - 1);
      var st, action := states[k - 1], actions[k - 1];
      ApplyKeepsRested(st, action);
      match action {
        case Receive => ReceivedAccounted(st);
        case Iterate(read, inject) => IteratedAccounted(st, read, inject);
        case _ => assert Line(states[k]) == Line(st);
      }
    }
  }

  lemma {:induction false} NothingReceived()
    ensures Ledger.Settled(Line(START), {}, 0)
  {
  }

  /** Datagrams reach a successful inject in the order of their arrival and at most once, the one
      that wolfSSL could not take yet before every later one; every datagram received was
      injected, is waiting, is queued, or was dropped from a full queue. */
  lemma {:induction false} InjectedInArrivalOrder(states: seq<State>, actions: seq<Action>, k: nat)
    requires IsRun(states, actions) && k < |states|
    ensures var st := states[k];
            && Ledger.Increasing(st.injected + Waiting(st.pending) + st.queue)
            && (forall d :: 0 <= d < st.next <==> d in st.injected + Waiting(st.pending) + st.queue || d in st.evicted)
            && (forall d :: d in st.evicted ==> d !in st.injected + Waiting(st.pending) + st.queue)
  {
    RunsAreSound(states, actions, k);
  }

  /** A worker that found the queue empty sleeps only while it is empty, or a notification is on
      its way. */
  lemma {:induction false} NeverMissesDatagram(states: seq<State>, actions: seq<Action>, k: nat)
    requires IsRun(states, actions) && k < |states|
    requires states[k].pc.Asleep? && states[k].pc.empty
    ensures || states[k].queue == []
            || states[k].reader.OwesNotify? || states[k].reader.OwesWake? || states[k].other.OwesWake?
    ensures states[k].generation == states[k].pc.observed ==> states[k].queue == [] || states[k].reader.OwesNotify?
    ensures states[k].pending.None?
  {
    RunsAreSound(states, actions, k);
  }

  // ----- What is read, and when -----

  /** wolfSSL was given a datagram, or said that it has data, since it last had nothing left. */
  ghost predicate ReadDue(contacts: seq<Contact>) {
    exists i ::
      && 0 <= i < |contacts| && contacts[i].Injected? && contacts[i].answer != Refused
      && forall j :: i < j < |contacts| ==> contacts[j] != WasRead(WantRead)
  }

  lemma {:induction false} ReadDuePush(contacts: seq<Contact>, c: Contact)
    ensures ReadDue(contacts + [c])
       <==> if c.Injected? && c.answer != Refused then true else c != WasRead(WantRead) && ReadDue(contacts)
  {
    var more := contacts + [c];
    if ReadDue(contacts) && c != WasRead(WantRead) {
      var i :| && 0 <= i < |contacts| && contacts[i].Injected? && contacts[i].answer != Refused
               && forall j :: i < j < |contacts| ==> contacts[j] != WasRead(WantRead);
      assert more[i] == contacts[i];
      assert forall j :: i < j < |more| ==> more[j] != WasRead(WantRead);
    }
    if c.Injected? && c.answer != Refused {
      assert more[|contacts|] == c;
    }
    if ReadDue(more) && !(c.Injected? && c.answer != Refused) {
      var i :| && 0 <= i < |more| && more[i].Injected? && more[i].answer != Refused
               && forall j :: i < j < |more| ==> more[j] != WasRead(WantRead);
      assert more[|contacts|] == c && contacts[i] == more[i];
      assert forall j :: i < j < |contacts| ==> contacts[j] == more[j];
    }
  }

  /** Nothing is injected before all that came of the datagram before has been read. */
  ghost predicate Alternate(contacts: seq<Contact>) {
    forall i :: 0 < i < |contacts| ==>
      (contacts[i].Injected? <==> contacts[i - 1] == WasRead(WantRead))
  }

  ghost predicate LastIs(contacts: seq<Contact>, c: Contact) {
    contacts != [] && contacts[|contacts| - 1] == c
  }

  ghost predicate Drains(st: State) {
    && (st.drain <==> ReadDue(st.contacts))
    && (!st.drain ==> st.contacts == [] || LastIs(st.contacts, WasRead(WantRead)) || st.pc.Stopped?)
    && (st.drain ==> st.contacts != [] && (LastIs(st.contacts, WasRead(WantRead)) ==> st.pc.Stopped?))
    && Alternate(st.contacts)
    && (st.contacts != [] ==> st.contacts[0].Injected?)
    && (st.pc.Take? || st.pc.Inject? ==> !st.drain)
    && (st.pc.Wait? || st.pc.Asleep? ==>
          if st.pc.empty then !st.drain else LastIs(st.contacts, WasRead(WantWrite)))
  }

  /** The datagrams that wolfSSL accepted are the injected ones; the one it had no room for is
      still the next. */
  ghost predicate Answered(st: State) {
    && (forall d :: d in st.injected <==> Injected(d, Accepted) in st.contacts)
    && (forall d :: Injected(d, AppDataReady) in st.contacts ==> d in st.injected || st.pending == Some(d))
  }

  lemma {:induction false} IteratedDrains(st: State, read: ReadResult, inject: InjectResult)
    requires Drains(st) && Rested(st) && !st.pc.Asleep? && !st.pc.Stopped?
    ensures Drains(Iterated(st, read, inject))
  {
    hide ReadDue;
    match st.pc {
      case Read(_) => ReadDuePush(st.contacts, WasRead(read));
      case Inject(_) => ReadDuePush(st.contacts, Injected(st.pending.value, inject));
      case _ =>
    }
  }

  lemma {:induction false} IteratedAnswered(st: State, read: ReadResult, inject: InjectResult)
    requires Answered(st) && Rested(st)
    ensures Answered(Iterated(st, read, inject))
  {
  }

  lemma {:induction false} RunsDrain(states: seq<State>, actions: seq<Action>, k: nat)
    requires IsRun(states, actions) && k < |states|
    ensures Drains(states[k]) && Answered(states[k])
  {
    hide Iterated, ReadDue;
    if k == 0 {
      assert !ReadDue([]) by { NothingDue(); }
    } else {
      RunsDrain(states, actions, k - 1);
      RunsAreSound(states, actions, k - 1);
      match actions[k - 1] {
        case Iterate(read, inject) =>
          IteratedDrains(states[k - 1], read, inject);
          IteratedAnswered(states[k - 1], read, inject);
        case _ =>
      }
    }
  }

  lemma {:induction false} NothingDue()
    ensures !ReadDue([])
  {
  }

  /** The drain flag is set exactly as long as an accepted datagram, or data that wolfSSL has
      announced, may still be there to be read.  Nothing is injected meanwhile, and the worker
      sleeps meanwhile only when wolfSSL has to write first.  The datagrams accepted are the
      injected ones; one that wolfSSL had no room for is kept until it is accepted. */
  lemma {:induction false} ReadsWhatItInjects(states: seq<State>, actions: seq<Action>, k: nat)
    requires IsRun(states, actions) && k < |states|
    ensures var st := states[k];
            && (st.drain <==>
                  exists i ::
                    && 0 <= i < |st.contacts| && st.contacts[i].Injected? && st.contacts[i].answer != Refused
                    && forall j :: i < j < |st.contacts| ==> st.contacts[j] != WasRead(WantRead))
            && (forall i :: 0 < i < |st.contacts| && st.contacts[i].Injected? ==>
                  st.contacts[i - 1] == WasRead(WantRead))
            && (st.pc.Asleep? && st.drain ==> st.contacts[|st.contacts| - 1] == WasRead(WantWrite))
            && (forall d :: d in st.injected <==> Injected(d, Accepted) in st.contacts)
            && (forall d :: Injected(d, AppDataReady) in st.contacts ==> d in st.injected || st.pending == Some(d))
  {
    RunsDrain(states, actions, k);
  }

  ghost function NotifiesIn(actions: seq<Action>): set<int> {
    set k | 0 <= k < |actions| && actions[k].Notify?
  }

  ghost function Drained(contacts: seq<Contact>): set<int> {
    set i | 0 <= i < |contacts| && contacts[i] == WasRead(WantRead)
  }

  lemma {:induction false} NotifiesPush(actions: seq<Action>, a: Action)
    ensures |NotifiesIn(actions + [a])| == |NotifiesIn(actions)| + if a.Notify? then 1 else 0
  {
    var more := NotifiesIn(actions + [a]);
    assert more == NotifiesIn(actions) + if a.Notify? then {|actions|} else {};
  }

  lemma {:induction false} DrainedPush(contacts: seq<Contact>, c: Contact)
    ensures |Drained(contacts + [c])| == |Drained(contacts)| + if c == WasRead(WantRead) then 1 else 0
  {
    var more := Drained(contacts + [c]);
    assert more == Drained(contacts) + if c == WasRead(WantRead) then {|contacts|} else {};
  }

  lemma {:induction false} StepCounts(st: State, action: Action)
    requires Enabled(st, action) && Rested(st)
    ensures Apply(st, action).generation - |Drained(Apply(st, action).contacts)|
         == st.generation - |Drained(st.contacts)| + if action.Notify? then 1 else 0
  {
    hide Drained;
    if action.Iterate? {
      DrainedPush(st.contacts, WasRead(action.read));
      if st.pc.Inject? {
        DrainedPush(st.contacts, Injected(st.pending.value, action.inject));
      }
    }
  }

  lemma {:induction false} RunsCount(states: seq<State>, actions: seq<Action>, k: nat)
    requires IsRun(states, actions) && k < |states|
    ensures states[k].generation == |NotifiesIn(actions[..k])| + |Drained(states[k].contacts)|
  {
    if k == 0 {
      assert NotifiesIn(actions[..0]) == {} && Drained([]) == {};
    } else {
      hide NotifiesIn, Drained, Apply;
      RunsCount(states, actions, k - 1);
      RunsAreSound(states, actions, k - 1);
      assert actions[..k] == actions[..k - 1] + [actions[k - 1]];
      NotifiesPush(actions[..k - 1], actions[k - 1]);
      StepCounts(states[k - 1], actions[k - 1]);
    }
  }

  /** The progress signal counts the notifications of the other threads, and one for every time
      the worker has read everything. */
  lemma {:induction false} GenerationCounts(states: seq<State>, actions: seq<Action>, k: nat)
    requires IsRun(states, actions) && k < |states|
    ensures var contacts := states[k].contacts;
            states[k].generation == |set n | 0 <= n < k && actions[n].Notify?|
                                  + |set i | 0 <= i < |contacts| && contacts[i] == WasRead(WantRead)|
  {
    RunsCount(states, actions, k);
    assert NotifiesIn(actions[..k]) == set n | 0 <= n < k && actions[n].Notify?;
  }

  // ----- The worker's loop body, as it runs -----

  class Worker {
    var queue: seq<nat>
    var next: nat
    ghost var evicted: set<nat>
    var generation: nat
    var reader: Duty
    var other: Duty
    var pc: Pc
    var pending: Option<nat>
    var drain: bool
    ghost var injected: seq<nat>
    ghost var contacts: seq<Contact>

    ghost function View(): State
      reads this
    {
      State(queue, next, evicted, generation, reader, other, pc, pending, drain, injected, contacts)
    }

    constructor ()
      ensures View() == START
    {
      queue, next, evicted, generation, reader, other := [], 0, {}, 0, Idle, Idle;
      pc, pending, drain, injected, contacts := Top, None, false, [], [];
    }

    /** The drain: one DTLS read, if the drain flag is set. */
    method ReadRecord(o: nat, read: ReadResult)
      modifies this
      ensures View() == ReadOnce(old(View()), o, read)
    {
      if !drain {
        pc := Take(o);
        return;
      }
      contacts := contacts + [WasRead(read)];
      match read {
        case Data => pc := Top;
        case WantRead =>
          drain := false;
          generation := generation + 1;
          pc := Take(o);
        case WantWrite => pc := Wait(o, false);
        case ReadError => pc := Stopped;
      }
    }

    /** The next datagram for wolfSSL: the one that waits, or the queue's oldest. */
    method TakeDatagram(o: nat)
      modifies this
      ensures View() == TakeOne(old(View()), o)
    {
      if pending.None? {
        if queue == [] {
          pc := Wait(o, true);
          return;
        }
        pending := Some(queue[0]);
        queue := queue[1..];
      }
      pc := Inject(o);
    }

    method InjectDatagram(inject: InjectResult)
      requires pending.Some?
      modifies this
      ensures View() == InjectOne(old(View()), inject)
    {
      contacts := contacts + [Injected(pending.value, inject)];
      match inject {
        case Accepted =>
          injected := injected + [pending.value];
          pending := None;
          drain := true;
          pc := Top;
        case AppDataReady =>
          drain := true;
          pc := Top;
        case Refused => pc := Stopped;
      }
    }

    /** One operation of the loop. */
    method Iterate(read: ReadResult, inject: InjectResult)
      requires !pc.Asleep? && !pc.Stopped? && (pc.Inject? ==> pending.Some?)
      modifies this
      ensures View() == Apply(old(View()), Action.Iterate(read, inject))
    {
      hide ReadOnce, TakeOne, InjectOne;
      match pc {
        case Top => pc := Read(generation);
        case Read(o) => ReadRecord(o, read);
        case Take(o) => TakeDatagram(o);
        case Inject(_) => InjectDatagram(inject);
        case Wait(o, empty) => pc := if generation == o then Asleep(o, empty) else Top;
      }
    }

    /** The UDP reader's push. */
    method Receive()
      requires reader.Idle?
      modifies this
      ensures View() == Apply(old(View()), Action.Receive)
    {
      if |queue| == CAPACITY {
        evicted := evicted + {queue[0]};
        queue := queue[1..];
      }
      queue := queue + [next];
      next := next + 1;
      reader := OwesNotify;
    }
  }
}
