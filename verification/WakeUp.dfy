/** Sleeping and waking: the server's encrypt, UDP-write and decrypt workers under every
    interleaving of their lock operations, queue operations and notifications.

    A notification is two steps: the generation is bumped under the condition variable's own
    mutex, the sleepers are woken after it is released.  The work done while the sessions
    mutex is held is split into single queue operations. */
module WakeUp {
  import opened Net

  const CAPACITY := 4096

  datatype Thread = TunReader | UdpReader | Encrypt | UdpWrite | Decrypt | Control

  /** tun_read_queue, dtls_progress and udp_rx_queue: what a worker can sleep on. */
  datatype Target = Packets | Progress | Datagrams

  /** A session, as far as sleeping is concerned: the lengths of its plaintext and ciphertext
      queues, and whether it has input that the next drain pass must look at. */
  datatype Slot = Slot(raw: nat, enc: nat, input: bool)

  /** What a thread must do before anything else: bump a generation after an enqueue, or wake
      the sleepers after a bump.  OwesRaw is the obligation after queueing plaintext for one
      session; it also ends when that session is dropped. */
  datatype Duty = Idle | Owes(target: Target) | OwesRaw(slot: nat) | Waking(target: Target)

  datatype EncryptPc =
    | ETop
    | EPop(o: nat)
    | ERoute(o: nat)
    | EFlush(o: nat)
    | EDecide(o: nat, pending: bool)
    | EWait(o: nat)
    | EAsleep(o: nat)

  datatype UdpPc = UTop | UPass(o: nat) | UScan(o: nat) | UWait(o: nat) | UAsleep(o: nat)

  datatype DecryptPc =
    | DTop
    | DPass(o: nat)
    | DDedupe(o: nat, pending: bool)
    | DTake(o: nat, pending: bool)
    | DPop(o: nat, pending: bool)
    | DHandle
    | DWait(o: nat)
    | DAsleep(o: nat)

  datatype State = State(
    slots: seq<Slot>,
    owner: Option<Thread>,
    packets: nat,
    datagrams: nat,
    reloads: nat,
    generation: Target -> nat,
    duty: Thread -> Duty,
    encrypt: EncryptPc,
    udp: UdpPc,
    decrypt: DecryptPc)

  ghost predicate Initial(st: State) {
    && st.slots == [] && st.owner.None?
    && st.packets == 0 && st.datagrams == 0 && st.reloads == 0
    && (forall t :: st.duty(t).Idle?)
    && st.encrypt.ETop? && st.udp.UTop? && st.decrypt.DTop?
  }

  function Bump(generation: Target -> nat, target: Target): Target -> nat {
    t => if t == target then generation(t) + 1 else generation(t)
  }

  function WithDuty(st: State, thread: Thread, duty: Duty): State {
    st.(duty := (t => if t == thread then duty else st.duty(t)))
  }

  /** The places where a thread takes the sessions mutex. */
  predicate MayLock(st: State, thread: Thread) {
    match thread
    case Encrypt => st.encrypt.ERoute? || st.encrypt.EFlush?
    case UdpWrite => st.udp.UPass? || st.udp.UScan?
    case Decrypt => st.decrypt.DPass? || st.decrypt.DDedupe? || st.decrypt.DHandle?
    case Control => true
    case _ => false
  }

  predicate RawPending(slots: seq<Slot>) { exists j :: 0 <= j < |slots| && slots[j].raw > 0 }

  predicate EncPending(slots: seq<Slot>) { exists j :: 0 <= j < |slots| && slots[j].enc > 0 }

  predicate InputPending(slots: seq<Slot>) { exists j :: 0 <= j < |slots| && slots[j].input }

  /** What a lock holder may do to one session without enqueueing for another worker. */
  predicate Worked(thread: Thread, before: Slot, after: Slot) {
    match thread
    case Encrypt => after.enc == before.enc && after.input == before.input
    case UdpWrite => after.raw == before.raw && after.enc <= before.enc && after.input == before.input
    case Decrypt => after.raw == before.raw && after.enc == before.enc
    case _ => after == before
  }

  function SwapRemoved(slots: seq<Slot>, i: nat): seq<Slot>
    requires i < |slots|
  {
    var n := |slots| - 1;
    if i == n then slots[..n] else slots[..n][i := slots[n]]
  }

  datatype Action =
    | ReadTun
    | ReadUdp
    | SendReload
    | Notify(thread: Thread, target: Target)
    | Wake(thread: Thread)
    | Acquire(thread: Thread)
    | Release(thread: Thread)
    | Work(thread: Thread, slot: nat, after: Slot)
    | PushEnc(thread: Thread, slot: nat)
    | PushRaw(slot: nat)
    | Insert
    | Remove(thread: Thread, slot: nat)
    | EncryptStep
    | UdpStep(idle: bool)
    | DecryptStep

  /** A full queue drops its oldest item for the new one. */
  function Pushed(length: nat): nat {
    if length >= CAPACITY then length else length + 1
  }

  predicate Holds(st: State, thread: Thread) {
    st.owner == Some(thread) && st.duty(thread).Idle?
  }

  /** Leaving the mutex: the workers record what they saw in the table just before. */
  function Released(st: State, thread: Thread): (r: State)
    ensures r == st.(owner := None, encrypt := r.encrypt, udp := r.udp, decrypt := r.decrypt)
  {
    var free := st.(owner := None);
    match thread
    case Encrypt =>
      if st.encrypt.EFlush? then free.(encrypt := EDecide(st.encrypt.o, RawPending(st.slots))) else free
    case UdpWrite =>
      if st.udp.UScan? then free.(udp := if EncPending(st.slots) then UTop else UWait(st.udp.o)) else free
    case Decrypt =>
      (match st.decrypt
       case DPass(o) => free.(decrypt := DDedupe(o, InputPending(st.slots)))
       case DDedupe(o, pending) => free.(decrypt := DTake(o, pending))
       case DHandle => free.(decrypt := DTop)
       case _ => free)
    case _ => free
  }

  /** The encrypt worker outside the mutex. */
  function EncryptMoves(st: State): (r: State)
    ensures r == st.(packets := r.packets, encrypt := r.encrypt)
  {
    match st.encrypt
    case ETop => st.(encrypt := EPop(st.generation(Packets)))
    case EPop(o) =>
      if st.packets > 0 then st.(packets := st.packets - 1, encrypt := ERoute(o)) else st.(encrypt := EFlush(o))
    case ERoute(o) => st.(encrypt := EPop(o))
    case EFlush(_) => st
    case EDecide(o, pending) => st.(encrypt := if pending then ETop else EWait(o))
    case EWait(o) => st.(encrypt := if st.generation(Packets) == o then EAsleep(o) else ETop)
    case EAsleep(_) => st
  }

  /** The UDP-write worker outside the mutex; `idle` says that the pass sent nothing and the
      socket did not block. */
  function UdpMoves(st: State, idle: bool): (r: State)
    ensures r == st.(udp := r.udp)
  {
    match st.udp
    case UTop => st.(udp := UPass(st.generation(Progress)))
    case UPass(o) => st.(udp := if idle then UScan(o) else UTop)
    case UWait(o) => st.(udp := if st.generation(Progress) == o then UAsleep(o) else UTop)
    case _ => st
  }

  /** The decrypt worker outside the mutex. */
  function DecryptMoves(st: State): (r: State)
    ensures r == st.(reloads := r.reloads, datagrams := r.datagrams, decrypt := r.decrypt)
  {
    match st.decrypt
    case DTop => st.(decrypt := DPass(st.generation(Datagrams)))
    case DTake(o, pending) =>
      if st.reloads > 0 then st.(reloads := st.reloads - 1) else st.(decrypt := DPop(o, pending))
    case DPop(o, pending) =>
      if st.datagrams > 0 then st.(datagrams := st.datagrams - 1, decrypt := DHandle)
      else st.(decrypt := if pending then DTop else DWait(o))
    case DWait(o) => st.(decrypt := if st.generation(Datagrams) == o then DAsleep(o) else DTop)
    case _ => st
  }

  function Woken(st: State, target: Target): (r: State)
    ensures r == st.(encrypt := r.encrypt, udp := r.udp, decrypt := r.decrypt)
  {
    match target
    case Packets => if st.encrypt.EAsleep? then st.(encrypt := EWait(st.encrypt.o)) else st
    case Progress => if st.udp.UAsleep? then st.(udp := UWait(st.udp.o)) else st
    case Datagrams => if st.decrypt.DAsleep? then st.(decrypt := DWait(st.decrypt.o)) else st
  }

  predicate Enabled(st: State, action: Action) {
    match action
    case ReadTun => st.duty(TunReader).Idle?
    case ReadUdp => st.duty(UdpReader).Idle?
    case SendReload => st.duty(Control).Idle? && st.owner != Some(Control)
    case Notify(thread, target) =>
      var duty := st.duty(thread);
      duty.Idle? || duty == Owes(target) || (duty.OwesRaw? && target.Packets?)
    case Wake(thread) => st.duty(thread).Waking?
    case Acquire(thread) => st.owner.None? && st.duty(thread).Idle? && MayLock(st, thread)
    case Release(thread) => Holds(st, thread)
    case Work(thread, i, after) =>
      && Holds(st, thread) && i < |st.slots| && Worked(thread, st.slots[i], after)
      && (thread.Decrypt? ==> !st.decrypt.DDedupe?) // the dedupe pass only removes
    case PushEnc(thread, i) =>
      Holds(st, thread) && i < |st.slots| && (thread.Encrypt? || thread.Decrypt? || thread.Control?)
    case PushRaw(i) => Holds(st, Decrypt) && i < |st.slots|
    case Insert => Holds(st, Decrypt) && st.decrypt.DHandle?
    case Remove(thread, i) =>
      && st.owner == Some(thread) && i < |st.slots| && !thread.Encrypt?
      && (st.duty(thread).Idle? || st.duty(thread) == OwesRaw(i))
    case EncryptStep => st.owner != Some(Encrypt) && st.duty(Encrypt).Idle?
    case UdpStep(_) => st.owner != Some(UdpWrite) && st.duty(UdpWrite).Idle?
    case DecryptStep => st.owner != Some(Decrypt) && st.duty(Decrypt).Idle?
  }

  function Apply(st: State, action: Action): State
    requires Enabled(st, action)
  {
    match action
    case ReadTun =>
      WithDuty(st.(packets := Pushed(st.packets), generation := Bump(st.generation, Packets)),
               TunReader, Waking(Packets))
    case ReadUdp =>
      WithDuty(st.(datagrams := Pushed(st.datagrams), generation := Bump(st.generation, Datagrams)),
               UdpReader, Waking(Datagrams))
    case SendReload => WithDuty(st.(reloads := st.reloads + 1), Control, Owes(Datagrams))
    case Notify(thread, target) =>
      WithDuty(st.(generation := Bump(st.generation, target)), thread, Waking(target))
    case Wake(thread) => Woken(WithDuty(st, thread, Idle), st.duty(thread).target)
    case Acquire(thread) => st.(owner := Some(thread))
    case Release(thread) => Released(st, thread)
    case Work(_, i, after) => st.(slots := st.slots[i := after])
    case PushEnc(thread, i) =>
      WithDuty(st.(slots := st.slots[i := st.slots[i].(enc := st.slots[i].enc + 1)]), thread, Owes(Progress))
    case PushRaw(i) =>
      WithDuty(st.(slots := st.slots[i := st.slots[i].(raw := st.slots[i].raw + 1)]), Decrypt, OwesRaw(i))
    case Insert => st.(slots := st.slots + [Slot(0, 0, false)])
    case Remove(thread, i) => WithDuty(st.(slots := SwapRemoved(st.slots, i)), thread, Idle)
    case EncryptStep => EncryptMoves(st)
    case UdpStep(idle) => UdpMoves(st, idle)
    case DecryptStep => DecryptMoves(st)
  }

  ghost predicate IsRun(states: seq<State>, actions: seq<Action>) {
    && |states| == |actions| + 1
    && Initial(states[0])
    && forall k :: 0 <= k < |actions| ==>
      Enabled(states[k], actions[k]) && states[k + 1] == Apply(states[k], actions[k])
  }

  // ----- The invariant -----

  /** Obligations to notify are kept inside the mutex, except the control thread's after it has
      sent a reload. */
  ghost predicate DutiesOk(st: State) {
    && (st.owner.Some? ==> MayLock(st, st.owner.value))
    && forall t :: match st.duty(t)
                   case Owes(Progress) => st.owner == Some(t)
                   case Owes(Packets) => false
                   case Owes(Datagrams) => t.Control?
                   case OwesRaw(i) => t.Decrypt? && st.owner == Some(Decrypt) && i < |st.slots|
                   case _ => true
  }

  ghost predicate EncryptOk(st: State) {
    match st.encrypt
    case EFlush(o) => st.generation(Packets) == o ==> st.packets == 0
    case EDecide(o, pending) => st.generation(Packets) == o ==> st.packets == 0 && (pending || RawQuiet(st))
    case EWait(o) => st.generation(Packets) == o ==> st.packets == 0 && RawQuiet(st)
    case EAsleep(o) =>
      if st.generation(Packets) == o then st.packets == 0 && RawQuiet(st) else exists t :: st.duty(t) == Waking(Packets)
    case _ => true
  }

  /** Only a session whose plaintext the decrypt thread has just queued can have any. */
  ghost predicate RawQuiet(st: State) {
    forall j :: 0 <= j < |st.slots| ==> st.slots[j].raw == 0 || st.duty(Decrypt) == OwesRaw(j)
  }

  ghost predicate EncQuiet(st: State) {
    !EncPending(st.slots) || exists t :: st.duty(t) == Owes(Progress)
  }

  ghost predicate UdpOk(st: State) {
    match st.udp
    case UWait(o) => st.generation(Progress) == o ==> EncQuiet(st)
    case UAsleep(o) => if st.generation(Progress) == o then EncQuiet(st) else exists t :: st.duty(t) == Waking(Progress)
    case _ => true
  }

  ghost predicate ReloadsQuiet(st: State, o: nat) {
    st.generation(Datagrams) == o ==> st.reloads == 0 || st.duty(Control) == Owes(Datagrams)
  }

  ghost predicate DecryptOk(st: State) {
    match st.decrypt
    case DDedupe(_, pending) => pending || !InputPending(st.slots)
    case DTake(_, pending) => pending || !InputPending(st.slots)
    case DPop(o, pending) => (pending || !InputPending(st.slots)) && ReloadsQuiet(st, o)
    case DWait(o) =>
      && !InputPending(st.slots) && ReloadsQuiet(st, o)
      && (st.generation(Datagrams) == o ==> st.datagrams == 0)
    case DAsleep(o) =>
      && !InputPending(st.slots) && ReloadsQuiet(st, o)
      && if st.generation(Datagrams) == o then st.datagrams == 0 else exists t :: st.duty(t) == Waking(Datagrams)
    case _ => true
  }

  /** No worker has seen a generation that is still to come. */
  ghost predicate ObservedOk(st: State) {
    && (!st.encrypt.ETop? ==> st.encrypt.o <= st.generation(Packets))
    && (!st.udp.UTop? ==> st.udp.o <= st.generation(Progress))
    && (!st.decrypt.DTop? && !st.decrypt.DHandle? ==> st.decrypt.o <= st.generation(Datagrams))
  }

  ghost predicate Inv(st: State) {
    ObservedOk(st) && DutiesOk(st) && EncryptOk(st) && UdpOk(st) && DecryptOk(st)
  }

  /** A wake-up that is still to be delivered stays so until its thread delivers it. */
  lemma {:induction false} WakingPersists(st: State, action: Action, target: Target)
    requires DutiesOk(st) && Enabled(st, action)
    requires exists t :: st.duty(t) == Waking(target)
    ensures (exists t :: Apply(st, action).duty(t) == Waking(target))
         || (action.Wake? && st.duty(action.thread) == Waking(target))
  {
    var t :| st.duty(t) == Waking(target);
    if Apply(st, action).duty(t) != Waking(target) {
    }
  }

  lemma {:induction false} ApplyKeepsDuties(st: State, action: Action)
    requires Inv(st) && Enabled(st, action)
    ensures DutiesOk(Apply(st, action)) && ObservedOk(Apply(st, action))
  {
    hide EncryptOk, UdpOk, DecryptOk;
  }

  /** What the encrypt worker's claim rests on when another thread acts. */
  lemma {:induction false} RawStaysQuiet(st: State, action: Action)
    requires DutiesOk(st) && Enabled(st, action) && RawQuiet(st)
    requires !(action.Work? && action.thread.Encrypt?)
    requires !(action.Notify? && action.target.Packets?)
    ensures RawQuiet(Apply(st, action))
  {
    hide EncryptMoves, UdpMoves, DecryptMoves, Released, Woken;
  }

  /** The encrypt worker's own steps, and the wake-ups it receives. */
  lemma {:induction false} EncryptOwnStep(st: State, action: Action)
    requires Inv(st) && Enabled(st, action)
    requires action.EncryptStep? || action.Wake? || action == Release(Encrypt)
    ensures EncryptOk(Apply(st, action))
  {
    hide UdpOk, DecryptOk, UdpMoves, DecryptMoves;
    if action.Wake? && st.encrypt.EAsleep? {
      RawStaysQuietIf(st, action);
      if st.generation(Packets) != st.encrypt.o { WakingPersists(st, action, Packets); }
    }
    if action.Wake? { RawStaysQuietIf(st, action); }
  }

  lemma {:induction false} RawStaysQuietIf(st: State, action: Action)
    requires DutiesOk(st) && Enabled(st, action)
    requires !(action.Work? && action.thread.Encrypt?)
    requires !(action.Notify? && action.target.Packets?)
    ensures RawQuiet(st) ==> RawQuiet(Apply(st, action))
  {
    hide RawQuiet, EncryptMoves, UdpMoves, DecryptMoves, Released, Woken, Apply, Enabled;
    if RawQuiet(st) { RawStaysQuiet(st, action); }
  }

  /** Everybody else's steps leave its program counter alone. */
  lemma {:induction false} EncryptOthersStep(st: State, action: Action)
    requires Inv(st) && Enabled(st, action)
    requires !action.EncryptStep? && !action.Wake? && action != Release(Encrypt)
    ensures EncryptOk(Apply(st, action))
  {
    hide UdpOk, DecryptOk, EncryptMoves, UdpMoves, DecryptMoves, Worked;
    if !(action.Work? && action.thread.Encrypt?) && !(action.Notify? && action.target.Packets?) {
      RawStaysQuietIf(st, action);
    }
    if st.encrypt.EAsleep? && st.generation(Packets) != st.encrypt.o {
      WakingPersists(st, action, Packets);
    }
    if action.Notify? && action.target.Packets? {
      assert Apply(st, action).duty(action.thread) == Waking(Packets);
    }
    if action.ReadTun? {
      assert Apply(st, action).duty(TunReader) == Waking(Packets);
    }
  }

  lemma {:induction false} EncStaysQuiet(st: State, action: Action)
    requires DutiesOk(st) && Enabled(st, action) && EncQuiet(st)
    requires !(action.Notify? && action.target.Progress?)
    ensures EncQuiet(Apply(st, action))
  {
    hide EncryptMoves, UdpMoves, DecryptMoves, Released, Woken;
    if exists t :: st.duty(t) == Owes(Progress) {
      var t :| st.duty(t) == Owes(Progress);
      assert Apply(st, action).duty(t) == Owes(Progress);
    } else if action.PushEnc? {
      assert Apply(st, action).duty(action.thread) == Owes(Progress);
    }
  }

  lemma {:induction false} InputStaysQuiet(st: State, action: Action)
    requires Enabled(st, action) && !InputPending(st.slots)
    requires !(action.Work? && action.thread.Decrypt?)
    ensures !InputPending(Apply(st, action).slots)
  {
    hide EncryptMoves, UdpMoves, DecryptMoves, Released, Woken;
  }

  lemma {:induction false} UdpOwnStep(st: State, action: Action)
    requires Inv(st) && Enabled(st, action)
    requires action.UdpStep? || action.Wake? || action == Release(UdpWrite)
    ensures UdpOk(Apply(st, action))
  {
    hide EncryptOk, DecryptOk, EncryptMoves, DecryptMoves, RawQuiet;
    if EncQuiet(st) { EncStaysQuiet(st, action); }
    if action.Wake? && st.udp.UAsleep? && st.generation(Progress) != st.udp.o { WakingPersists(st, action, Progress); }
  }

  lemma {:induction false} UdpOthersStep(st: State, action: Action)
    requires Inv(st) && Enabled(st, action)
    requires !action.UdpStep? && !action.Wake? && action != Release(UdpWrite)
    ensures UdpOk(Apply(st, action))
  {
    hide EncryptOk, DecryptOk, EncryptMoves, UdpMoves, DecryptMoves, EncQuiet;
    if !(action.Notify? && action.target.Progress?) && EncQuiet(st) { EncStaysQuiet(st, action); }
    if st.udp.UAsleep? && st.generation(Progress) != st.udp.o { WakingPersists(st, action, Progress); }
    if action.Notify? && action.target.Progress? {
      assert Apply(st, action).duty(action.thread) == Waking(Progress);
    }
  }

  lemma {:induction false} DecryptOwnStep(st: State, action: Action)
    requires Inv(st) && Enabled(st, action)
    requires action.DecryptStep? || action.Wake? || action == Release(Decrypt)
    ensures DecryptOk(Apply(st, action))
  {
    hide EncryptOk, UdpOk, EncryptMoves, UdpMoves, RawQuiet, EncQuiet, InputPending;
    if action.Wake? && st.decrypt.DAsleep? && st.generation(Datagrams) != st.decrypt.o {
      WakingPersists(st, action, Datagrams);
    }
  }

  lemma {:induction false} DecryptOthersStep(st: State, action: Action)
    requires Inv(st) && Enabled(st, action)
    requires !action.DecryptStep? && !action.Wake? && action != Release(Decrypt)
    ensures DecryptOk(Apply(st, action))
  {
    hide EncryptOk, UdpOk, EncryptMoves, UdpMoves, DecryptMoves, InputPending, RawQuiet, EncQuiet;
    if !(action.Work? && action.thread.Decrypt?) && !InputPending(st.slots) { InputStaysQuiet(st, action); }
    if st.decrypt.DAsleep? && st.generation(Datagrams) != st.decrypt.o { WakingPersists(st, action, Datagrams); }
    if action.Notify? && action.target.Datagrams? {
      assert Apply(st, action).duty(action.thread) == Waking(Datagrams);
    }
    if action.ReadUdp? {
      assert Apply(st, action).duty(UdpReader) == Waking(Datagrams);
    }
  }

  lemma {:induction false} ApplyKeepsInv(st: State, action: Action)
    requires Inv(st) && Enabled(st, action)
    ensures Inv(Apply(st, action))
  {
    hide EncryptOk, UdpOk, DecryptOk, DutiesOk, ObservedOk, Apply, Enabled;
    ApplyKeepsDuties(st, action);
    if action.EncryptStep? || action.Wake? || action == Release(Encrypt) {
      EncryptOwnStep(st, action);
    } else {
      EncryptOthersStep(st, action);
    }
    if action.UdpStep? || action.Wake? || action == Release(UdpWrite) {
      UdpOwnStep(st, action);
    } else {
      UdpOthersStep(st, action);
    }
    if action.DecryptStep? || action.Wake? || action == Release(Decrypt) {
      DecryptOwnStep(st, action);
    } else {
      DecryptOthersStep(st, action);
    }
  }

  lemma {:induction false} RunsKeepInv(states: seq<State>, actions: seq<Action>, k: nat)
    requires IsRun(states, actions) && k < |states|
    ensures Inv(states[k])
  {
    hide Apply, Enabled;
    if k > 0 {
      RunsKeepInv(states, actions, k - 1);
      ApplyKeepsInv(states[k - 1], actions[k - 1]);
    }
  }

  // ----- No lost wake-up -----

  /** Somebody is between an enqueue and the notification of `target` that it owes, or between
      that notification's bump and its wake-up. */
  ghost predicate WakeUpComing(st: State, target: Target) {
    exists t :: st.duty(t) == Owes(target) || st.duty(t) == Waking(target) || (target.Packets? && st.duty(t).OwesRaw?)
  }

  /** An encrypt worker asleep.  Since the generation it has seen, either a notification was
      counted that is still to be delivered, or none was: then no packet waits, and plaintext
      only in a session that the decrypt thread still owes a notification for. */
  lemma {:induction false} EncryptNeverMissesWork(states: seq<State>, actions: seq<Action>, k: nat)
    requires IsRun(states, actions) && k < |states| && states[k].encrypt.EAsleep?
    ensures var st := states[k];
            if st.generation(Packets) != st.encrypt.o then exists t :: st.duty(t) == Waking(Packets)
            else st.packets == 0
                 && forall j :: 0 <= j < |st.slots| && st.slots[j].raw > 0 ==> st.duty(Decrypt) == OwesRaw(j)
  {
    hide UdpOk, DecryptOk;
    RunsKeepInv(states, actions, k);
  }

  /** A UDP-write worker asleep: a counted notification is still to be delivered, or there is
      no ciphertext in any session, or whoever enqueued it still owes the notification. */
  lemma {:induction false} UdpWriteNeverMissesWork(states: seq<State>, actions: seq<Action>, k: nat)
    requires IsRun(states, actions) && k < |states| && states[k].udp.UAsleep?
    ensures var st := states[k];
            if st.generation(Progress) != st.udp.o then exists t :: st.duty(t) == Waking(Progress)
            else !EncPending(st.slots) || exists t :: st.duty(t) == Owes(Progress)
  {
    hide EncryptOk, DecryptOk;
    RunsKeepInv(states, actions, k);
  }

  /** A decrypt worker asleep: no session has input left; and a counted notification is still to
      be delivered, or no datagram waits, and a configuration only while the control thread
      still owes its notification. */
  lemma {:induction false} DecryptNeverMissesWork(states: seq<State>, actions: seq<Action>, k: nat)
    requires IsRun(states, actions) && k < |states| && states[k].decrypt.DAsleep?
    ensures var st := states[k];
            && !InputPending(st.slots)
            && if st.generation(Datagrams) != st.decrypt.o then exists t :: st.duty(t) == Waking(Datagrams)
               else st.datagrams == 0 && (st.reloads == 0 || st.duty(Control) == Owes(Datagrams))
  {
    hide EncryptOk, UdpOk;
    RunsKeepInv(states, actions, k);
  }

  // ----- Sleep is reached -----

  function Undisturbed(): State {
    State([], None, 0, 0, 0, t => 0, t => Idle, ETop, UTop, DTop)
  }

  lemma {:induction false} Then(states: seq<State>, actions: seq<Action>, action: Action, st: State)
    returns (states': seq<State>, actions': seq<Action>)
    requires IsRun(states, actions) && Enabled(states[|actions|], action) && st == Apply(states[|actions|], action)
    ensures IsRun(states', actions') && states'[|actions'|] == st
  {
    hide Apply, Enabled, Initial;
    states', actions' := states + [st], actions + [action];
    forall k | 0 <= k < |actions'|
      ensures Enabled(states'[k], actions'[k]) && states'[k + 1] == Apply(states'[k], actions'[k])
    {
      if k < |actions| {
        assert states'[k] == states[k] && states'[k + 1] == states[k + 1] && actions'[k] == actions[k];
      }
    }
  }

  lemma {:induction false} StartUp() returns (states: seq<State>, actions: seq<Action>)
    ensures IsRun(states, actions) && states[|actions|] == Undisturbed()
  {
    states, actions := [Undisturbed()], [];
  }

  lemma {:induction false} RunLength(states: seq<State>, actions: seq<Action>)
    requires IsRun(states, actions)
    ensures |states| == |actions| + 1
  {
  }

  /** With nothing to do each worker goes to sleep, and nobody is about to wake it: the
      statements above speak about states that occur. */
  lemma {:induction false} EncryptSleeps()
    ensures exists states: seq<State>, actions: seq<Action> ::
              IsRun(states, actions) && states[|actions|].encrypt.EAsleep? && !WakeUpComing(states[|actions|], Packets)
  {
    hide IsRun;
    var st := Undisturbed();
    var states, actions := StartUp();
    RunLength(states, actions);
    states, actions := Then(states, actions, EncryptStep, st.(encrypt := EPop(0)));
    RunLength(states, actions);
    states, actions := Then(states, actions, EncryptStep, st.(encrypt := EFlush(0)));
    RunLength(states, actions);
    states, actions := Then(states, actions, Acquire(Encrypt), st.(encrypt := EFlush(0), owner := Some(Encrypt)));
    RunLength(states, actions);
    states, actions := Then(states, actions, Release(Encrypt), st.(encrypt := EDecide(0, false)));
    RunLength(states, actions);
    states, actions := Then(states, actions, EncryptStep, st.(encrypt := EWait(0)));
    RunLength(states, actions);
    states, actions := Then(states, actions, EncryptStep, st.(encrypt := EAsleep(0)));
    RunLength(states, actions);
  }

  lemma {:induction false} UdpWriteSleeps()
    ensures exists states: seq<State>, actions: seq<Action> ::
              IsRun(states, actions) && states[|actions|].udp.UAsleep? && !WakeUpComing(states[|actions|], Progress)
  {
    hide IsRun;
    var st := Undisturbed();
    var states, actions := StartUp();
    RunLength(states, actions);
    states, actions := Then(states, actions, UdpStep(true), st.(udp := UPass(0)));
    RunLength(states, actions);
    states, actions := Then(states, actions, UdpStep(true), st.(udp := UScan(0)));
    RunLength(states, actions);
    states, actions := Then(states, actions, Acquire(UdpWrite), st.(udp := UScan(0), owner := Some(UdpWrite)));
    RunLength(states, actions);
    states, actions := Then(states, actions, Release(UdpWrite), st.(udp := UWait(0)));
    RunLength(states, actions);
    states, actions := Then(states, actions, UdpStep(true), st.(udp := UAsleep(0)));
    RunLength(states, actions);
  }

  lemma {:induction false} DecryptSleeps()
    ensures exists states: seq<State>, actions: seq<Action> ::
              IsRun(states, actions) && states[|actions|].decrypt.DAsleep?
                && !WakeUpComing(states[|actions|], Datagrams)
  {
    hide IsRun;
    var st := Undisturbed();
    var states, actions := StartUp();
    RunLength(states, actions);
    states, actions := Then(states, actions, DecryptStep, st.(decrypt := DPass(0)));
    RunLength(states, actions);
    states, actions := Then(states, actions, Acquire(Decrypt), st.(decrypt := DPass(0), owner := Some(Decrypt)));
    RunLength(states, actions);
    states, actions := Then(states, actions, Release(Decrypt), st.(decrypt := DDedupe(0, false)));
    RunLength(states, actions);
    states, actions :=
      Then(states, actions, Acquire(Decrypt), st.(decrypt := DDedupe(0, false), owner := Some(Decrypt)));
    RunLength(states, actions);
    states, actions := Then(states, actions, Release(Decrypt), st.(decrypt := DTake(0, false)));
    RunLength(states, actions);
    states, actions := Then(states, actions, DecryptStep, st.(decrypt := DPop(0, false)));
    RunLength(states, actions);
    states, actions := Then(states, actions, DecryptStep, st.(decrypt := DWait(0)));
    RunLength(states, actions);
    states, actions := Then(states, actions, DecryptStep, st.(decrypt := DAsleep(0)));
    RunLength(states, actions);
  }
}
