/** The bounded FIFO between the worker threads, with its reservation of the front item. */
module Queue {
  import opened Net
  import opened Ledger

  datatype TryPopError = QueueEmpty | QueueClosed

  datatype TryPop<T> = Popped(item: T) | NotPopped(error: TryPopError)

  /** One call of a method is one locked section of the original.  The reservation is handed out
      as a value: its holder either commits it (pop) or restores it (drop). */
  class Queue<T> {
    const capacity: nat
    var items: seq<T>
    var closed: bool
    var generation: nat
    ghost var ledger: Ledger<T>

    ghost predicate Valid()
      reads this
    {
      && Sound(ledger)
      && ledger.capacity == capacity > 0
      && ledger.closed == closed
      && |items| == |ledger.waiting|
      && (forall i :: 0 <= i < |items| ==>
          ledger.waiting[i] < |ledger.pushed| && items[i] == ledger.pushed[ledger.waiting[i]])
    }

    /** The consumer holds `item` in reservation. */
    ghost predicate Holding(item: T)
      reads this
    {
      ledger.held.Some? && ledger.held.value < |ledger.pushed| && ledger.pushed[ledger.held.value] == item
    }

    constructor (capacity: nat)
      requires capacity > 0
      ensures Valid() && this.capacity == capacity
      ensures ledger == Start(capacity) && items == [] && !closed && generation == 0
    {
      this.capacity := capacity;
      items, closed, generation := [], false, 0;
      ledger := Start(capacity);
      new;
      StartSound<T>(capacity);
    }

    method NotifyChange()
      modifies this`generation
      ensures generation == old(generation) + 1
    {
      generation := generation + 1;
    }

    /** A full queue drops its oldest item; a closed one accepts nothing. */
    method Push(item: T) returns (accepted: bool, dropped: Option<T>)
      requires Valid()
      modifies this
      ensures Valid()
      ensures ledger == Pushed(old(ledger), item)
      ensures accepted == !old(closed)
      ensures dropped == if !old(closed) && |old(items)| == capacity then Some(old(items)[0]) else None
      ensures items == if old(closed) then old(items)
                       else (if |old(items)| == capacity then old(items)[1..] else old(items)) + [item]
      ensures generation == if accepted then old(generation) + 1 else old(generation)
    {
      PushedSound(ledger, item);
      if closed {
        return false, None;
      }
      accepted, dropped := true, None;
      ledger := Pushed(ledger, item);
      if |items| == capacity {
        dropped := Some(items[0]);
        items := items[1..];
      }
      items := items + [item];
      generation := generation + 1;
    }

    /** Reserves the oldest item without committing its removal. */
    method TryPeek() returns (r: TryPop<T>)
      requires Valid() && ledger.held.None?
      modifies this`items, this`ledger
      ensures Valid()
      ensures ledger == Reserved(old(ledger))
      ensures old(items) != [] ==> r == Popped(old(items)[0]) && items == old(items)[1..] && Holding(r.item)
      ensures old(items) == [] ==> r == NotPopped(if closed then QueueClosed else QueueEmpty) && items == []
      ensures old(items) == [] ==> ledger == old(ledger)
    {
      if items != [] {
        ApplySound(ledger, Op<T>.Reserve);
        r := Popped(items[0]);
        items := items[1..];
        ledger := Reserved(ledger);
        return;
      }
      r := NotPopped(if closed then QueueClosed else QueueEmpty);
    }

    /** QueueFront::pop. */
    method Commit(item: T) returns (taken: T)
      requires Valid() && Holding(item)
      modifies this`ledger
      ensures Valid() && ledger == Committed(old(ledger)) && ledger.held.None?
      ensures taken == item
    {
      ApplySound(ledger, Op<T>.Commit);
      ledger := Committed(ledger);
      taken := item;
    }

    /** Dropping a reservation: the item returns to the front; if producers have filled the queue
        meanwhile, the newest item makes room; a closed queue takes nothing back. */
    method Restore(item: T)
      requires Valid() && Holding(item)
      modifies this`items, this`ledger
      ensures Valid() && ledger == Restored(old(ledger)) && ledger.held.None?
      ensures items == if closed then old(items)
                       else [item] + if |old(items)| == capacity then old(items)[..capacity - 1] else old(items)
    {
      RestoredSound(ledger);
      ledger := Restored(ledger);
      if closed {
        return;
      }
      if |items| == capacity {
        items := items[..|items| - 1];
      }
      items := [item] + items;
    }

    method TryPop() returns (r: TryPop<T>)
      requires Valid() && ledger.held.None?
      modifies this`items, this`ledger
      ensures Valid() && ledger.held.None?
      ensures ledger == Committed(Reserved(old(ledger)))
      ensures old(items) != [] ==> r == Popped(old(items)[0]) && items == old(items)[1..]
      ensures old(items) == [] ==> r == NotPopped(if closed then QueueClosed else QueueEmpty) && items == []
    {
      r := TryPeek();
      if r.Popped? {
        var _ := Commit(r.item);
      }
    }

    method Close()
      requires Valid()
      modifies this
      ensures Valid() && closed && items == []
      ensures ledger == Closed(old(ledger))
      ensures generation == if old(closed) then old(generation) else old(generation) + 1
    {
      ClosedSound(ledger);
      if closed {
        return;
      }
      closed := true;
      items := [];
      ledger := Closed(ledger);
      generation := generation + 1;
    }
  }
}
