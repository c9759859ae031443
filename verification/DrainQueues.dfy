/** The workers' drain loops over a session's plaintext and ciphertext queues.

    Both queues are only pushed to under the sessions mutex, which the drain loop's caller
    holds.  What happens to the item at position i of the queue - the time at which it is
    looked at, and what the write call answers - is `probes(i)`. */
module DrainQueues {
  import opened Net
  import opened Ledger
  import opened Queue
  import opened Selection

  const SESSION_PACKET_TTL := 2_000

  datatype Stamped = Stamped(bytes: Bytes, enqueuedAt: Instant)

  predicate Expired(item: Stamped, now: Instant) {
    now >= item.enqueuedAt && now - item.enqueuedAt >= SESSION_PACKET_TTL
  }

  /** The first k items have been committed, in order; nothing else has changed. */
  ghost predicate Consumed(start: Ledger<Stamped>, k: nat, now: Ledger<Stamped>) {
    && k <= |start.waiting|
    && now == start.(committed := start.committed + start.waiting[..k], waiting := start.waiting[k..])
  }

  lemma {:induction false} CommitsOneMore(start: Ledger<Stamped>, k: nat, now: Ledger<Stamped>)
    requires Consumed(start, k, now) && start.held.None? && now.waiting != []
    ensures Consumed(start, k + 1, Committed(Reserved(now)))
  {
    assert start.waiting[..k + 1] == start.waiting[..k] + [start.waiting[k]];
  }

  lemma {:induction false} RestoreUndoesReserve(now: Ledger<Stamped>)
    requires Sound(now) && now.held.None? && now.waiting != []
    ensures Restored(Reserved(now)) == now
  {
    assert now.waiting == [now.waiting[0]] + now.waiting[1..];
  }

  // ----- Plaintext: drain_raw_queue -----

  datatype WriteResult = Sent | Retry | DropPacket

  datatype WriteProbe = WriteProbe(now: Instant, result: WriteResult)

  datatype PacketFate = WasSent | WasExpired | WasDropped

  predicate RawBlocked(item: Stamped, probe: WriteProbe) {
    !Expired(item, probe.now) && probe.result.Retry?
  }

  function RawFate(item: Stamped, probe: WriteProbe): PacketFate {
    if Expired(item, probe.now) then WasExpired else if probe.result.Sent? then WasSent else WasDropped
  }

  /** The packets that left the queue, and why, are exactly those in front of the first blocked
      one, which stays in front of the rest. */
  ghost predicate RawGone(items: seq<Stamped>, probes: nat -> WriteProbe, fates: seq<PacketFate>,
                          written: seq<Stamped>) {
    && |fates| <= |items|
    && (forall i :: 0 <= i < |fates| ==> !RawBlocked(items[i], probes(i)) && fates[i] == RawFate(items[i], probes(i)))
    && written == Select(items[..|fates|], fates, WasSent)
  }

  lemma {:induction false} RawGoneMore(items: seq<Stamped>, probes: nat -> WriteProbe, fates: seq<PacketFate>,
                                       written: seq<Stamped>)
    requires RawGone(items, probes, fates, written)
    requires |fates| < |items| && !RawBlocked(items[|fates|], probes(|fates|))
    ensures var item := items[|fates|];
            var fate := RawFate(item, probes(|fates|));
            RawGone(items, probes, fates + [fate], if fate.WasSent? then written + [item] else written)
  {
    hide Select;
    var k := |fates|;
    SelectPush(items[..k], fates, WasSent, items[k], RawFate(items[k], probes(k)));
    assert items[..k + 1] == items[..k] + [items[k]];
  }

  /** A packet goes when it is at least two seconds old as it is looked at, or when the write
      takes or refuses it; the first younger one that has to be tried again stops the drain. */
  ghost predicate RawDrained(items: seq<Stamped>, probes: nat -> WriteProbe, fates: seq<PacketFate>,
                             rest: seq<Stamped>) {
    && |fates| <= |items| && rest == items[|fates|..]
    && (forall i :: 0 <= i < |fates| ==>
          var age := probes(i).now - items[i].enqueuedAt;
          && (fates[i] == WasExpired <==> age >= 2_000)
          && (fates[i] == WasSent <==> age < 2_000 && probes(i).result == Sent)
          && (fates[i] == WasDropped <==> age < 2_000 && probes(i).result == DropPacket))
    && (rest != [] ==> probes(|fates|).now - rest[0].enqueuedAt < 2_000 && probes(|fates|).result == Retry)
  }

  method DrainRaw(queue: Queue<Stamped>, probes: nat -> WriteProbe)
    returns (result: WriteResult, fates: seq<PacketFate>, written: seq<Stamped>)
    requires queue.Valid() && queue.ledger.held.None?
    modifies queue`items, queue`ledger
    ensures queue.Valid()
    ensures RawDrained(old(queue.items), probes, fates, queue.items)
    ensures result == if queue.items == [] then Sent else Retry
    ensures written == Select(old(queue.items)[..|fates|], fates, WasSent)
    ensures Consumed(old(queue.ledger), |fates|, queue.ledger)
  {
    hide Sound, Reserved, Committed, Restored, Consumed, RawGone, RawDrained, Select;
    fates, written := [], [];
    NothingGone(queue.items, probes, queue.ledger);
    while true
      invariant queue.Valid() && queue.ledger.held.None?
      invariant |fates| <= |old(queue.items)| && queue.items == old(queue.items)[|fates|..]
      invariant RawGone(old(queue.items), probes, fates, written)
      invariant Consumed(old(queue.ledger), |fates|, queue.ledger)
      decreases |queue.items|
    {
      ghost var before := queue.ledger;
      var front := queue.TryPeek();
      if front.NotPopped? {
        RawEnd(old(queue.items), probes, fates, written);
        return Sent, fates, written;
      }
      var item, probe := front.item, probes(|fates|);
      if !Expired(item, probe.now) && probe.result.Retry? {
        queue.Restore(item);
        RestoreUndoesReserve(before);
        assert queue.items == old(queue.items)[|fates|..];
        RawEnd(old(queue.items), probes, fates, written);
        return Retry, fates, written;
      }
      var _ := queue.Commit(item);
      CommitsOneMore(old(queue.ledger), |fates|, before);
      RawGoneMore(old(queue.items), probes, fates, written);
      if Expired(item, probe.now) {
        fates := fates + [WasExpired];
      } else if probe.result.Sent? {
        fates, written := fates + [WasSent], written + [item];
      } else {
        fates := fates + [WasDropped];
      }
    }
  }

  lemma {:induction false} NothingGone(items: seq<Stamped>, probes: nat -> WriteProbe, l: Ledger<Stamped>)
    ensures RawGone(items, probes, [], []) && Consumed(l, 0, l) && items[0..] == items
  {
  }

  lemma {:induction false} RawEnd(items: seq<Stamped>, probes: nat -> WriteProbe, fates: seq<PacketFate>,
                                  written: seq<Stamped>)
    requires RawGone(items, probes, fates, written)
    requires |fates| == |items| || RawBlocked(items[|fates|], probes(|fates|))
    ensures RawDrained(items, probes, fates, items[|fates|..])
    ensures written == Select(items[..|fates|], fates, WasSent)
  {
  }

  // ----- Ciphertext: drain_encrypted_queue -----

  datatype SendResult = Wrote(count: nat) | WouldBlock | SendError

  datatype SendProbe = SendProbe(now: Instant, result: SendResult)

  datatype DatagramFate = FullySent | Outdated | Truncated

  datatype DrainResult = Drained(blocked: bool) | PartialWrite | Failed

  predicate Stops(item: Stamped, probe: SendProbe) {
    !Expired(item, probe.now) && (probe.result.WouldBlock? || probe.result.SendError?)
  }

  function EncFate(item: Stamped, probe: SendProbe): DatagramFate {
    if Expired(item, probe.now) then Outdated
    else if probe.result.Wrote? && probe.result.count == |item.bytes| then FullySent
    else Truncated
  }

  /** The datagrams that left the queue are those in front of the first young one that the socket
      refused; a truncated one leaves it too, but is the last.  Those at least two seconds old are
      not sent. */
  ghost predicate EncDrained(items: seq<Stamped>, probes: nat -> SendProbe, fates: seq<DatagramFate>,
                             rest: seq<Stamped>, result: DrainResult) {
    && |fates| <= |items| && rest == items[|fates|..]
    && (forall i :: 0 <= i < |fates| ==> DatagramFateOk(items[i], probes(i), fates[i]))
    && (forall i :: 0 <= i < |fates| && fates[i] == Truncated ==> i == |fates| - 1)
    && (result == PartialWrite <==> fates != [] && fates[|fates| - 1] == Truncated)
    && (result != PartialWrite && rest != [] ==>
          && probes(|fates|).now - rest[0].enqueuedAt < 2_000
          && probes(|fates|).result == if result == Failed then SendError else WouldBlock)
    && (result == Drained(false) ==> rest == [])
    && (result == Drained(true) || result == Failed ==> rest != [])
  }

  ghost predicate DatagramFateOk(item: Stamped, probe: SendProbe, fate: DatagramFate) {
    var age := probe.now - item.enqueuedAt;
    && (fate == Outdated <==> age >= 2_000)
    && (fate == FullySent <==> age < 2_000 && probe.result == Wrote(|item.bytes|))
    && (fate == Truncated <==> age < 2_000 && probe.result.Wrote? && probe.result.count != |item.bytes|)
  }

  ghost predicate EncGone(items: seq<Stamped>, probes: nat -> SendProbe, fates: seq<DatagramFate>, sent: seq<Stamped>) {
    && |fates| <= |items|
    && (forall i :: 0 <= i < |fates| ==> !Stops(items[i], probes(i)) && fates[i] == EncFate(items[i], probes(i)))
    && sent == Select(items[..|fates|], fates, FullySent)
  }

  lemma {:induction false} EncGoneMore(items: seq<Stamped>, probes: nat -> SendProbe, fates: seq<DatagramFate>,
                                       sent: seq<Stamped>)
    requires EncGone(items, probes, fates, sent)
    requires |fates| < |items| && !Stops(items[|fates|], probes(|fates|))
    ensures var item := items[|fates|];
            var fate := EncFate(item, probes(|fates|));
            && EncGone(items, probes, fates + [fate], if fate.FullySent? then sent + [item] else sent)
            && (NoneTruncated(fates) && !fate.Truncated? ==> NoneTruncated(fates + [fate]))
  {
    hide Select;
    var k := |fates|;
    SelectPush(items[..k], fates, FullySent, items[k], EncFate(items[k], probes(k)));
    assert items[..k + 1] == items[..k] + [items[k]];
  }

  lemma {:induction false} NothingSent(items: seq<Stamped>, probes: nat -> SendProbe, l: Ledger<Stamped>)
    ensures EncGone(items, probes, [], []) && NoneTruncated([]) && Consumed(l, 0, l) && items[0..] == items
  {
  }

  predicate NoneTruncated(fates: seq<DatagramFate>) {
    forall i :: 0 <= i < |fates| ==> !fates[i].Truncated?
  }

  lemma {:induction false} EncEnd(items: seq<Stamped>, probes: nat -> SendProbe, fates: seq<DatagramFate>,
                                  sent: seq<Stamped>,
                                  result: DrainResult)
    requires EncGone(items, probes, fates, sent) && NoneTruncated(fates) && !result.PartialWrite?
    requires result.Drained? && !result.blocked ==> |fates| == |items|
    requires result.Drained? && result.blocked ==>
               |fates| < |items| && Stops(items[|fates|], probes(|fates|)) && probes(|fates|).result.WouldBlock?
    requires result.Failed? ==>
               |fates| < |items| && Stops(items[|fates|], probes(|fates|)) && probes(|fates|).result.SendError?
    ensures EncDrained(items, probes, fates, items[|fates|..], result)
    ensures sent == Select(items[..|fates|], fates, FullySent)
  {
  }

  lemma {:induction false} TruncatedEnd(items: seq<Stamped>, probes: nat -> SendProbe,
                                        fates: seq<DatagramFate>, sent: seq<Stamped>)
    requires EncGone(items, probes, fates + [Truncated], sent) && NoneTruncated(fates)
    ensures |fates| < |items|
    ensures EncDrained(items, probes, fates + [Truncated], items[|fates| + 1..], PartialWrite)
    ensures sent == Select(items[..|fates| + 1], fates + [Truncated], FullySent)
  {
  }

  method DrainEncrypted(queue: Queue<Stamped>, probes: nat -> SendProbe)
    returns (result: DrainResult, fates: seq<DatagramFate>, sent: seq<Stamped>)
    requires queue.Valid() && queue.ledger.held.None?
    modifies queue`items, queue`ledger
    ensures queue.Valid()
    ensures EncDrained(old(queue.items), probes, fates, queue.items, result)
    ensures sent == Select(old(queue.items)[..|fates|], fates, FullySent)
    ensures Consumed(old(queue.ledger), |fates|, queue.ledger)
  {
    hide Sound, Reserved, Committed, Restored, Consumed, Select, EncGone, EncDrained, NoneTruncated;
    fates, sent := [], [];
    NothingSent(queue.items, probes, queue.ledger);
    while true
      invariant queue.Valid() && queue.ledger.held.None?
      invariant |fates| <= |old(queue.items)| && queue.items == old(queue.items)[|fates|..]
      invariant EncGone(old(queue.items), probes, fates, sent)
      invariant NoneTruncated(fates)
      invariant Consumed(old(queue.ledger), |fates|, queue.ledger)
      decreases |queue.items|
    {
      ghost var before := queue.ledger;
      var front := queue.TryPeek();
      if front.NotPopped? {
        EncEnd(old(queue.items), probes, fates, sent, Drained(false));
        return Drained(false), fates, sent;
      }
      var item, probe := front.item, probes(|fates|);
      if Expired(item, probe.now) {
        var _ := queue.Commit(item);
        CommitsOneMore(old(queue.ledger), |fates|, before);
        EncGoneMore(old(queue.items), probes, fates, sent);
        fates := fates + [Outdated];
        continue;
      }
      match probe.result {
        case Wrote(count) =>
          var _ := queue.Commit(item);
          CommitsOneMore(old(queue.ledger), |fates|, before);
          EncGoneMore(old(queue.items), probes, fates, sent);
          if count != |item.bytes| {
            TruncatedEnd(old(queue.items), probes, fates, sent);
            return PartialWrite, fates + [Truncated], sent;
          }
          fates, sent := fates + [FullySent], sent + [item];
        case WouldBlock =>
          queue.Restore(item);
          RestoreUndoesReserve(before);
          assert queue.items == old(queue.items)[|fates|..];
          EncEnd(old(queue.items), probes, fates, sent, Drained(true));
          return Drained(true), fates, sent;
        case SendError =>
          queue.Restore(item);
          RestoreUndoesReserve(before);
          assert queue.items == old(queue.items)[|fates|..];
          EncEnd(old(queue.items), probes, fates, sent, Failed);
          return Failed, fates, sent;
      }
    }
  }

  // ----- The partition -----

  /** Items that left the queue, split by fate, together with the rest, are the old queue. */
  lemma {:induction false} RawPartition(items: seq<Stamped>, probes: nat -> WriteProbe, fates: seq<PacketFate>,
                                        rest: seq<Stamped>)
    requires RawDrained(items, probes, fates, rest)
    ensures var gone := items[..|fates|];
            && multiset(items) == multiset(Select(gone, fates, WasSent)) + multiset(Select(gone, fates, WasExpired))
                                  + multiset(Select(gone, fates, WasDropped)) + multiset(rest)
  {
    var gone := items[..|fates|];
    assert items == gone + rest;
    SplitByFate(gone, fates);
  }

  lemma {:induction false} SplitByFate(gone: seq<Stamped>, fates: seq<PacketFate>)
    requires |gone| == |fates|
    ensures multiset(gone) == multiset(Select(gone, fates, WasSent)) + multiset(Select(gone, fates, WasExpired))
                              + multiset(Select(gone, fates, WasDropped))
  {
    if gone == [] {
    } else {
      hide Select;
      var n := |gone| - 1;
      SplitByFate(gone[..n], fates[..n]);
      SelectLast(gone, fates, WasSent);
      SelectLast(gone, fates, WasExpired);
      SelectLast(gone, fates, WasDropped);
      var sent, expired := Select(gone[..n], fates[..n], WasSent), Select(gone[..n], fates[..n], WasExpired);
      var dropped := Select(gone[..n], fates[..n], WasDropped);
      PushOne(gone[..n], sent, expired, dropped, gone[n]);
      assert gone == gone[..n] + [gone[n]];
      match fates[n] {
        case WasSent =>
        case WasExpired =>
        case WasDropped =>
      }
    }
  }

  lemma {:induction false} PushOne(whole: seq<Stamped>, a: seq<Stamped>, b: seq<Stamped>, c: seq<Stamped>, x: Stamped)
    requires multiset(whole) == multiset(a) + multiset(b) + multiset(c)
    ensures multiset(whole + [x]) == multiset(a + [x]) + multiset(b) + multiset(c)
    ensures multiset(whole + [x]) == multiset(a) + multiset(b + [x]) + multiset(c)
    ensures multiset(whole + [x]) == multiset(a) + multiset(b) + multiset(c + [x])
  {
  }

  /** The answers fix the outcome: two drains of the same queue with the same answers agree. */
  lemma {:induction false} RawDeterministic(items: seq<Stamped>, probes: nat -> WriteProbe,
                                            fates: seq<PacketFate>, rest: seq<Stamped>,
                                            fates': seq<PacketFate>, rest': seq<Stamped>)
    requires RawDrained(items, probes, fates, rest) && RawDrained(items, probes, fates', rest')
    ensures fates == fates' && rest == rest'
  {
    if rest != [] { assert rest[0] == items[|fates|]; }
    if rest' != [] { assert rest'[0] == items[|fates'|]; }
  }
}
