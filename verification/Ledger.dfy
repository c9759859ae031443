/** What becomes of everything pushed into a queue.

    Pushed items are numbered by tickets.  Each ticket is committed, held by the consumer's
    reservation, waiting, or lost for a stated reason. */
module Ledger {
  import opened Net

  datatype Loss = EvictedOldest | EvictedNewest | Discarded

  datatype Ledger<T> = Ledger(
    capacity: nat,
    pushed: seq<T>,
    closed: bool,
    committed: seq<nat>,
    held: Option<nat>,
    waiting: seq<nat>,
    lost: map<nat, Loss>)

  datatype Op<T> = Push(item: T) | Reserve | Commit | Restore | Close

  function Held(held: Option<nat>): seq<nat> {
    match held case None => [] case Some(t) => [t]
  }

  /** The tickets that reached the consumer or still can, in the order they reach it. */
  function Line<T>(l: Ledger<T>): seq<nat> {
    l.committed + Held(l.held) + l.waiting
  }

  ghost predicate Increasing(list: seq<nat>) {
    forall i, j :: 0 <= i < j < |list| ==> list[i] < list[j]
  }

  /** Every ticket below `next` is on the line or lost, never both, and the line is in push
      order without repeats. */
  ghost predicate Settled(line: seq<nat>, lost: set<nat>, next: nat) {
    && Increasing(line)
    && (forall t :: t in line ==> t < next && t !in lost)
    && (forall t :: t in lost ==> t < next)
    && (forall t :: 0 <= t < next ==> t in line || t in lost)
  }

  ghost predicate Sound<T>(l: Ledger<T>) {
    && Settled(Line(l), l.lost.Keys, |l.pushed|)
    && |l.waiting| <= l.capacity && l.capacity > 0
    && (l.closed ==> l.waiting == [])
  }

  // ----- The queue's operations on tickets -----

  function Start<T>(capacity: nat): Ledger<T> {
    Ledger(capacity, [], false, [], None, [], map[])
  }

  function Pushed<T>(l: Ledger<T>, item: T): Ledger<T> {
    if l.closed then l
    else
      var t := |l.pushed|;
      if |l.waiting| == l.capacity && l.waiting != [] then
        l.(pushed := l.pushed + [item], waiting := l.waiting[1..] + [t], lost := l.lost[l.waiting[0] := EvictedOldest])
      else
        l.(pushed := l.pushed + [item], waiting := l.waiting + [t])
  }

  function Reserved<T>(l: Ledger<T>): Ledger<T> {
    if l.held.Some? || l.waiting == [] then l else l.(held := Some(l.waiting[0]), waiting := l.waiting[1..])
  }

  function Committed<T>(l: Ledger<T>): Ledger<T> {
    if l.held.None? then l else l.(committed := l.committed + [l.held.value], held := None)
  }

  function Restored<T>(l: Ledger<T>): Ledger<T> {
    if l.held.None? then l
    else if l.closed then l.(held := None, lost := l.lost[l.held.value := Discarded])
    else if |l.waiting| == l.capacity && l.waiting != [] then
      var n := |l.waiting| - 1;
      l.(held := None, waiting := [l.held.value] + l.waiting[..n], lost := l.lost[l.waiting[n] := EvictedNewest])
    else l.(held := None, waiting := [l.held.value] + l.waiting)
  }

  function Closed<T>(l: Ledger<T>): Ledger<T> {
    if l.closed then l
    else l.(closed := true, waiting := [], lost := l.lost + (map t | t in l.waiting :: Discarded))
  }

  function Apply<T>(l: Ledger<T>, op: Op<T>): Ledger<T> {
    match op
    case Push(item) => Pushed(l, item)
    case Reserve => Reserved(l)
    case Commit => Committed(l)
    case Restore => Restored(l)
    case Close => Closed(l)
  }

  function ApplyAll<T>(l: Ledger<T>, ops: seq<Op<T>>): Ledger<T> {
    if ops == [] then l else Apply(ApplyAll(l, ops[..|ops| - 1]), ops[|ops| - 1])
  }

  // ----- Laws -----

  lemma {:induction false} SettledPush(line: seq<nat>, lost: set<nat>, next: nat)
    requires Settled(line, lost, next)
    ensures Settled(line + [next], lost, next + 1)
  {
    forall i, j | 0 <= i < j < |line| + 1 ensures (line + [next])[i] < (line + [next])[j] {
      assert line[i] in line;
    }
    forall t | 0 <= t < next + 1 ensures t in line + [next] || t in lost {
      assert (line + [next])[|line|] == next;
      if t < next { assert t in line || t in lost; }
    }
  }

  lemma {:induction false} SettledLose(front: seq<nat>, t: nat, back: seq<nat>, lost: set<nat>, next: nat)
    requires Settled(front + [t] + back, lost, next)
    ensures Settled(front + back, lost + {t}, next)
  {
    var line := front + [t] + back;
    assert line[|front|] == t && t in line;
    forall i, j | 0 <= i < j < |front + back| ensures (front + back)[i] < (front + back)[j] {
      var i', j' := if i < |front| then i else i + 1, if j < |front| then j else j + 1;
      assert line[i'] < line[j'];
    }
    forall u | u in front + back ensures u in line && u != t {
      var i :| 0 <= i < |front + back| && (front + back)[i] == u;
      assert line[if i < |front| then i else i + 1] == u;
    }
  }

  lemma {:induction false} SettledLoseAll(front: seq<nat>, back: seq<nat>, lost: set<nat>, next: nat)
    requires Settled(front + back, lost, next)
    ensures Settled(front, lost + (set t | t in back), next)
    decreases |back|
  {
    var line := front + back;
    forall i, j | 0 <= i < j < |front| ensures front[i] < front[j] {
      assert line[i] < line[j];
    }
    forall i, j | 0 <= i < |front| && 0 <= j < |back| ensures front[i] != back[j] {
      assert line[i] < line[|front| + j];
    }
    assert forall t :: t in front ==> t in line;
  }

  lemma {:induction false} PushedSound<T>(l: Ledger<T>, item: T)
    requires Sound(l)
    ensures Sound(Pushed(l, item))
  {
    hide Settled;
    var front := l.committed + Held(l.held);
    if !l.closed {
      if |l.waiting| == l.capacity && l.waiting != [] {
        var back := l.waiting[1..];
        assert Line(l) == front + [l.waiting[0]] + back;
        SettledLose(front, l.waiting[0], back, l.lost.Keys, |l.pushed|);
        SettledPush(front + back, l.lost.Keys + {l.waiting[0]}, |l.pushed|);
        assert Line(Pushed(l, item)) == front + back + [|l.pushed|];
        assert Pushed(l, item).lost.Keys == l.lost.Keys + {l.waiting[0]};
      } else {
        SettledPush(Line(l), l.lost.Keys, |l.pushed|);
        assert Line(Pushed(l, item)) == Line(l) + [|l.pushed|];
      }
    }
  }

  lemma {:induction false} RestoredSound<T>(l: Ledger<T>)
    requires Sound(l)
    ensures Sound(Restored(l))
  {
    hide Settled;
    var r := Restored(l);
    if l.held.Some? {
      var t := l.held.value;
      if l.closed {
        assert Line(l) == l.committed + [t] + [];
        SettledLose(l.committed, t, [], l.lost.Keys, |l.pushed|);
        assert Line(r) == l.committed + [];
        assert r.lost.Keys == l.lost.Keys + {t};
      } else if |l.waiting| == l.capacity && l.waiting != [] {
        var n := |l.waiting| - 1;
        var front := l.committed + [t] + l.waiting[..n];
        assert Line(l) == front + [l.waiting[n]] + [];
        SettledLose(front, l.waiting[n], [], l.lost.Keys, |l.pushed|);
        assert Line(r) == front + [];
        assert r.lost.Keys == l.lost.Keys + {l.waiting[n]};
      } else {
        assert Line(r) == Line(l);
      }
    }
  }

  lemma {:induction false} ClosedSound<T>(l: Ledger<T>)
    requires Sound(l)
    ensures Sound(Closed(l))
  {
    hide Settled;
    if !l.closed {
      SettledLoseAll(l.committed + Held(l.held), l.waiting, l.lost.Keys, |l.pushed|);
      assert Line(Closed(l)) == l.committed + Held(l.held);
      assert Closed(l).lost.Keys == l.lost.Keys + (set t | t in l.waiting);
    }
  }

  lemma {:induction false} ApplySound<T>(l: Ledger<T>, op: Op<T>)
    requires Sound(l)
    ensures Sound(Apply(l, op))
  {
    hide Settled;
    match op {
      case Push(item) => PushedSound(l, item);
      case Reserve =>
        if l.held.None? && l.waiting != [] { assert l.waiting == [l.waiting[0]] + l.waiting[1..]; }
        assert Line(Reserved(l)) == Line(l);
      case Commit => assert Line(Committed(l)) == Line(l);
      case Restore => RestoredSound(l);
      case Close => ClosedSound(l);
    }
  }

  /** A queue with one consumer, whatever the producers push in between: committed, reserved and
      queued items are in push order without repeats, at most `capacity` are queued, and every
      pushed item has exactly one fate. */
  lemma {:induction false} QueueLedger<T>(capacity: nat, ops: seq<Op<T>>)
    requires capacity > 0
    ensures var l := ApplyAll(Start(capacity), ops);
            && Increasing(l.committed + Held(l.held) + l.waiting)
            && |l.waiting| <= capacity
            && (forall t :: 0 <= t < |l.pushed| <==> t in l.committed + Held(l.held) + l.waiting || t in l.lost)
            && (forall t :: t in l.lost ==> t !in l.committed + Held(l.held) + l.waiting)
  {
    AllSound<T>(capacity, ops);
  }

  lemma {:induction false} AllSound<T>(capacity: nat, ops: seq<Op<T>>)
    requires capacity > 0
    ensures Sound(ApplyAll(Start(capacity), ops)) && ApplyAll(Start(capacity), ops).capacity == capacity
  {
    hide Sound, Pushed, Reserved, Committed, Restored, Closed;
    if ops == [] {
      StartSound<T>(capacity);
    } else {
      var before := ApplyAll(Start<T>(capacity), ops[..|ops| - 1]);
      AllSound<T>(capacity, ops[..|ops| - 1]);
      ApplySound(before, ops[|ops| - 1]);
      CapacityKept(before, ops[|ops| - 1]);
    }
  }

  lemma {:induction false} StartSound<T>(capacity: nat)
    requires capacity > 0
    ensures Sound(Start<T>(capacity))
  {
  }

  lemma {:induction false} CapacityKept<T>(l: Ledger<T>, op: Op<T>)
    ensures Apply(l, op).capacity == l.capacity && (l.closed ==> Apply(l, op).closed)
  {
  }

  /** After close nothing is accepted, queued or handed out again: the consumer can only finish
      the reservation it has, by committing it or losing it. */
  lemma {:induction false} NothingAfterClose<T>(l: Ledger<T>, ops: seq<Op<T>>)
    requires Sound(l) && l.closed
    ensures var r := ApplyAll(l, ops);
            && r.closed && r.waiting == [] && r.pushed == l.pushed
            && (r.committed == l.committed || (l.held.Some? && r.committed == l.committed + [l.held.value]))
            && (r.held == l.held ==> l.held.None? || r.committed == l.committed)
            && (r.held != l.held ==> r.held.None?)
  {
    if ops != [] {
      NothingAfterClose(l, ops[..|ops| - 1]);
    }
  }
}
