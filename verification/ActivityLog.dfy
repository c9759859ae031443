/** The web console's activity log: connection events from successive session snapshots, and a
    newest-first log of bounded length. */
module ActivityLog {
  import opened Net

  const MAX_ENTRIES := 100

  datatype Seen = Seen(vpnAddress: string, fingerprint: string, clientIp: Option<string>)

  datatype Kind = ServerStarted | ServerStopped | ClientConnected(client: Seen) | ClientDisconnected(client: Seen)

  /** Times are ISO 8601 texts of equal length, whose order is that of the instants. */
  datatype Entry = Entry(kind: Kind, occurredAt: nat)

  // ----- The bounded log -----

  /** Entry e in front of the first one that is not newer. */
  function Insert(e: Entry, log: seq<Entry>): seq<Entry> {
    if log == [] || log[0].occurredAt <= e.occurredAt then [e] + log
    else [log[0]] + Insert(e, log[1..])
  }

  /** A stable sort, newest first. */
  function Sort(log: seq<Entry>): seq<Entry> {
    if log == [] then [] else Insert(log[0], Sort(log[1..]))
  }

  ghost predicate NewestFirst(log: seq<Entry>) {
    forall i, j :: 0 <= i < j < |log| ==> log[i].occurredAt >= log[j].occurredAt
  }

  function At(log: seq<Entry>, time: nat): seq<Entry> {
    if log == [] then []
    else (if log[0].occurredAt == time then [log[0]] else []) + At(log[1..], time)
  }

  function Take(log: seq<Entry>): seq<Entry> {
    if |log| <= MAX_ENTRIES then log else log[..MAX_ENTRIES]
  }

  lemma {:induction false} InsertMembers(e: Entry, log: seq<Entry>)
    ensures multiset(Insert(e, log)) == multiset(log) + multiset{e}
    ensures |Insert(e, log)| == |log| + 1
  {
    if log != [] && log[0].occurredAt > e.occurredAt {
      InsertMembers(e, log[1..]);
      assert log == [log[0]] + log[1..];
    }
  }

  lemma {:induction false} ConsSorted(x: Entry, log: seq<Entry>)
    requires NewestFirst(log) && forall i :: 0 <= i < |log| ==> x.occurredAt >= log[i].occurredAt
    ensures NewestFirst([x] + log)
  {
  }

  lemma {:induction false} InsertSorted(e: Entry, log: seq<Entry>)
    requires NewestFirst(log)
    ensures NewestFirst(Insert(e, log))
  {
    if log == [] || log[0].occurredAt <= e.occurredAt {
      ConsSorted(e, log);
    } else {
      var rest := Insert(e, log[1..]);
      InsertSorted(e, log[1..]);
      InsertMembers(e, log[1..]);
      forall i | 0 <= i < |rest| ensures log[0].occurredAt >= rest[i].occurredAt {
        assert rest[i] in multiset(rest);
        assert rest[i] == e || rest[i] in log[1..];
      }
      ConsSorted(log[0], rest);
    }
  }

  lemma {:induction false} AtCons(x: Entry, log: seq<Entry>, time: nat)
    ensures At([x] + log, time) == (if x.occurredAt == time then [x] else []) + At(log, time)
  {
    assert ([x] + log)[1..] == log;
  }

  lemma {:induction false} InsertAt(e: Entry, log: seq<Entry>, time: nat)
    ensures At(Insert(e, log), time) == (if e.occurredAt == time then [e] else []) + At(log, time)
  {
    hide At;
    if log == [] || log[0].occurredAt <= e.occurredAt {
      AtCons(e, log, time);
    } else {
      var rest := log[1..];
      InsertAt(e, rest, time);
      AtCons(log[0], Insert(e, rest), time);
      AtCons(log[0], rest, time);
      assert log == [log[0]] + rest;
      if e.occurredAt == time {
        assert [] + ([e] + At(rest, time)) == [e] + ([] + At(rest, time));
      }
    }
  }

  lemma {:induction false} SortOrdered(log: seq<Entry>)
    ensures NewestFirst(Sort(log))
  {
    if log != [] {
      SortOrdered(log[1..]);
      InsertSorted(log[0], Sort(log[1..]));
    }
  }

  lemma {:induction false} SortPermutes(log: seq<Entry>)
    ensures multiset(Sort(log)) == multiset(log) && |Sort(log)| == |log|
  {
    if log != [] {
      SortPermutes(log[1..]);
      InsertMembers(log[0], Sort(log[1..]));
      assert log == [log[0]] + log[1..];
    }
  }

  lemma {:induction false} SortKeepsOrder(log: seq<Entry>, time: nat)
    ensures At(Sort(log), time) == At(log, time)
  {
    if log != [] {
      SortKeepsOrder(log[1..], time);
      InsertAt(log[0], Sort(log[1..]), time);
    }
  }

  /** Sort really is the stable newest-first sort: a permutation, ordered, and entries of the
      same time keep their order. */
  lemma {:induction false} SortIsStable(log: seq<Entry>, time: nat)
    ensures NewestFirst(Sort(log)) && multiset(Sort(log)) == multiset(log) && |Sort(log)| == |log|
    ensures At(Sort(log), time) == At(log, time)
  {
    SortOrdered(log);
    SortPermutes(log);
    SortKeepsOrder(log, time);
  }

  lemma {:induction false} SortedStays(log: seq<Entry>)
    requires NewestFirst(log)
    ensures Sort(log) == log
  {
    if log != [] {
      SortedStays(log[1..]);
    }
  }

  /** Truncating before an insertion loses nothing that survives truncating after it. */
  lemma {:induction false} InsertTruncated(e: Entry, log: seq<Entry>, n: nat)
    requires n < |log|
    ensures |Insert(e, log)| > n && |Insert(e, log[..n])| >= n
    ensures Insert(e, log[..n])[..n] == Insert(e, log)[..n]
    decreases |log|
  {
    if n == 0 {
    } else if log[0].occurredAt <= e.occurredAt {
      assert ([e] + log)[..n] == [e] + log[..n - 1];
      assert ([e] + log[..n])[..n] == [e] + log[..n][..n - 1];
      assert log[..n][..n - 1] == log[..n - 1];
    } else {
      InsertTruncated(e, log[1..], n - 1);
      assert log[..n][1..] == log[1..][..n - 1];
    }
  }

  /** The stored log and the untruncated one. */
  ghost predicate Mirrors(stored: seq<Entry>, full: seq<Entry>) {
    stored == Take(full) && (|full| <= MAX_ENTRIES || NewestFirst(full))
  }

  lemma {:induction false} RecordMirrors(stored: seq<Entry>, full: seq<Entry>, e: Entry)
    requires Mirrors(stored, full)
    ensures Mirrors(Take(Sort([e] + stored)), Sort([e] + full))
  {
    assert ([e] + full)[1..] == full && ([e] + stored)[1..] == stored;
    SortIsStable([e] + full, 0);
    if |full| > MAX_ENTRIES {
      SortedStays(full);
      SortedStays(stored);
      InsertTruncated(e, full, MAX_ENTRIES);
      SortIsStable([e] + stored, 0);
    }
  }

  /** What the entries of a log say, however they are ordered. */
  function Kinds(log: seq<Entry>): multiset<Kind> {
    if log == [] then multiset{} else multiset{log[0].kind} + Kinds(log[1..])
  }

  lemma {:induction false} InsertKinds(e: Entry, log: seq<Entry>)
    ensures Kinds(Insert(e, log)) == Kinds(log) + multiset{e.kind}
  {
    if log == [] || log[0].occurredAt <= e.occurredAt {
      assert ([e] + log)[1..] == log;
    } else {
      InsertKinds(e, log[1..]);
      assert ([log[0]] + Insert(e, log[1..]))[1..] == Insert(e, log[1..]);
    }
  }

  lemma {:induction false} SortKinds(log: seq<Entry>)
    ensures Kinds(Sort(log)) == Kinds(log)
  {
    if log != [] {
      SortKinds(log[1..]);
      InsertKinds(log[0], Sort(log[1..]));
    }
  }

  lemma {:induction false} RecordKinds(e: Entry, log: seq<Entry>)
    ensures Kinds(Sort([e] + log)) == Kinds(log) + multiset{e.kind}
  {
    SortKinds([e] + log);
    assert ([e] + log)[1..] == log;
  }

  // ----- Snapshots -----

  function Position(seen: seq<Seen>, vpnAddress: string): (at: Option<nat>)
    ensures at.Some? ==> at.value < |seen| && seen[at.value].vpnAddress == vpnAddress
    ensures at.None? ==> forall s :: s in seen ==> s.vpnAddress != vpnAddress
  {
    if seen == [] then None
    else
      var n := |seen| - 1;
      if seen[n].vpnAddress == vpnAddress then Some(n) else Position(seen[..n], vpnAddress)
  }

  /** `new Map(...)`: one value per key, the last one, at the place of the first. */
  function ToMap(list: seq<Seen>): seq<Seen> {
    if list == [] then []
    else
      var n := |list| - 1;
      var rest := ToMap(list[..n]);
      match Position(rest, list[n].vpnAddress)
      case None => rest + [list[n]]
      case Some(at) => rest[at := list[n]]
  }

  function Addresses(seen: seq<Seen>): set<string> {
    set s | s in seen :: s.vpnAddress
  }

  ghost predicate OnePerAddress(seen: seq<Seen>) {
    forall i, j :: 0 <= i < j < |seen| ==> seen[i].vpnAddress != seen[j].vpnAddress
  }

  lemma {:induction false} ToMapKeys(list: seq<Seen>)
    ensures OnePerAddress(ToMap(list)) && Addresses(ToMap(list)) == Addresses(list)
  {
    if list != [] {
      var n := |list| - 1;
      var rest := ToMap(list[..n]);
      ToMapKeys(list[..n]);
      assert list == list[..n] + [list[n]];
      assert Addresses(list) == Addresses(list[..n]) + {list[n].vpnAddress};
      match Position(rest, list[n].vpnAddress) {
        case None =>
          assert Addresses(rest + [list[n]]) == Addresses(rest) + {list[n].vpnAddress};
        case Some(at) =>
          UpdateKeepsAddresses(rest, at, list[n]);
          assert rest[at] in rest;
      }
    }
  }

  /** Of the sessions listed with one address, the last one counts. */
  lemma {:induction false} ToMapLast(list: seq<Seen>, i: nat)
    requires i < |list| && forall j :: i < j < |list| ==> list[j].vpnAddress != list[i].vpnAddress
    ensures list[i] in ToMap(list)
  {
    var n := |list| - 1;
    var rest := ToMap(list[..n]);
    var at := Position(rest, list[n].vpnAddress);
    if i < n {
      ToMapLast(list[..n], i);
      var k :| 0 <= k < |rest| && rest[k] == list[i];
      assert at.Some? ==> at.value != k;
      assert ToMap(list)[k] == list[i];
    } else {
      assert ToMap(list)[if at.Some? then at.value else |rest|] == list[n];
    }
  }

  lemma {:induction false} UpdateKeepsAddresses(seen: seq<Seen>, at: nat, s: Seen)
    requires at < |seen| && seen[at].vpnAddress == s.vpnAddress
    ensures Addresses(seen[at := s]) == Addresses(seen)
  {
    forall t | t in seen ensures t.vpnAddress in Addresses(seen[at := s]) {
      var i :| 0 <= i < |seen| && seen[i] == t;
      assert seen[at := s][i] in seen[at := s];
    }
    forall t | t in seen[at := s] ensures t.vpnAddress in Addresses(seen) {
      var i :| 0 <= i < |seen| && seen[at := s][i] == t;
      assert seen[i] in seen;
    }
  }

  // ----- Events -----

  /** What the events since the first snapshot of a watch session say: the addresses connected,
      or nothing if an event contradicts the ones before it. */
  function Replay(start: set<string>, events: seq<Kind>): Option<set<string>> {
    if events == [] then Some(start)
    else
      var n := |events| - 1;
      match Replay(start, events[..n])
      case None => None
      case Some(now) =>
        match events[n]
        case ClientConnected(c) => if c.vpnAddress in now then None else Some(now + {c.vpnAddress})
        case ClientDisconnected(c) => if c.vpnAddress in now then Some(now - {c.vpnAddress}) else None
        case _ => Some(now)
  }

  lemma {:induction false} ReplayPush(start: set<string>, events: seq<Kind>, e: Kind)
    ensures Replay(start, events + [e]) ==
              match Replay(start, events)
              case None => None
              case Some(now) =>
                match e
                case ClientConnected(c) => if c.vpnAddress in now then None else Some(now + {c.vpnAddress})
                case ClientDisconnected(c) => if c.vpnAddress in now then Some(now - {c.vpnAddress}) else None
                case _ => Some(now)
  {
    assert (events + [e])[..|events|] == events;
  }

  predicate About(e: Kind, vpnAddress: string) {
    (e.ClientConnected? || e.ClientDisconnected?) && e.client.vpnAddress == vpnAddress
  }

  /** A consistent replay alternates: between two events of one address of the same kind there is
      one of the other kind. */
  lemma {:induction false} ReplayAlternates(start: set<string>, events: seq<Kind>, vpnAddress: string, i: nat, j: nat)
    requires Replay(start, events).Some? && i < j < |events|
    requires About(events[i], vpnAddress) && About(events[j], vpnAddress)
    requires forall k :: i < k < j ==> !About(events[k], vpnAddress)
    ensures events[i].ClientConnected? <==> events[j].ClientDisconnected?
  {
    ReplayPrefix(start, events, j + 1);
    ReplayPrefix(start, events, j);
    Since(start, events, vpnAddress, i, j);
    assert events[..j + 1][..j] == events[..j];
  }

  lemma {:induction false} ReplayPrefix(start: set<string>, events: seq<Kind>, n: nat)
    requires Replay(start, events).Some? && n <= |events|
    ensures Replay(start, events[..n]).Some?
  {
    if n < |events| {
      ReplayPrefix(start, events[..|events| - 1], n);
      assert events[..|events| - 1][..n] == events[..n];
    } else {
      assert events[..n] == events;
    }
  }

  lemma {:induction false} Since(start: set<string>, events: seq<Kind>, vpnAddress: string, i: nat, n: nat)
    requires i < n <= |events| && Replay(start, events[..n]).Some? && About(events[i], vpnAddress)
    requires forall k :: i < k < n ==> !About(events[k], vpnAddress)
    ensures vpnAddress in Replay(start, events[..n]).value <==> events[i].ClientConnected?
  {
    assert events[..n][..n - 1] == events[..n - 1];
    if n > i + 1 {
      Since(start, events, vpnAddress, i, n - 1);
    }
  }

  /** The log has one more entry for each event that has been added. */
  ghost predicate Told(events: seq<Kind>, events': seq<Kind>, full: seq<Entry>, full': seq<Entry>) {
    events <= events' && Kinds(full') == Kinds(full) + multiset(events'[|events|..])
  }

  lemma {:induction false} NothingTold(events: seq<Kind>, full: seq<Entry>)
    ensures Told(events, events, full, full) && forall start :: Replay(start, []) == Some(start)
  {
  }

  lemma {:induction false} TellMore(events: seq<Kind>, events': seq<Kind>, full: seq<Entry>, full': seq<Entry>,
                                    e: Kind, more: seq<Entry>)
    requires Told(events, events', full, full') && Kinds(more) == Kinds(full') + multiset{e}
    ensures Told(events, events' + [e], full, more)
  {
    assert (events' + [e])[|events|..] == events'[|events|..] + [e];
  }

  lemma {:induction false} ToldTwice(events: seq<Kind>, mid: seq<Kind>, events': seq<Kind>, full: seq<Entry>,
                                     midFull: seq<Entry>, full': seq<Entry>)
    requires Told(events, mid, full, midFull) && Told(mid, events', midFull, full')
    ensures Told(events, events', full, full')
    ensures forall k :: |events| <= k < |mid| ==> events'[k] == mid[k]
  {
    assert events'[|events|..] == mid[|events|..] + events'[|mid|..];
  }

  datatype Message = Sessions(list: seq<Seen>) | Unknown

  class ActivityLog {
    var entries: seq<Entry>
    var serverId: Option<string>
    var sessions: seq<Seen>
    var connected: bool
    /** Every entry ever made, sorted but never truncated. */
    ghost var full: seq<Entry>
    /** Of the watch session: the first snapshot's addresses and the client events since. */
    ghost var first: set<string>
    ghost var events: seq<Kind>

    ghost predicate Valid()
      reads this
    {
      && Mirrors(entries, full)
      && OnePerAddress(sessions)
      && (connected ==> Replay(first, events) == Some(Addresses(sessions)))
    }

    constructor (saved: seq<Entry>, serverId: Option<string>)
      ensures Valid() && !connected && full == entries == Take(saved)
    {
      entries := Take(saved);
      this.serverId := serverId;
      sessions, connected := [], false;
      full, first, events := Take(saved), {}, [];
    }

    /** unshift, stable sort, truncate. */
    method Record(kind: Kind, occurredAt: nat)
      requires Mirrors(entries, full)
      modifies this`entries, this`full
      ensures Mirrors(entries, full) && full == Sort([Entry(kind, occurredAt)] + old(full))
      ensures Kinds(full) == Kinds(old(full)) + multiset{kind}
    {
      RecordKinds(Entry(kind, occurredAt), full);
      RecordMirrors(entries, full, Entry(kind, occurredAt));
      full := Sort([Entry(kind, occurredAt)] + full);
      entries := Take(Sort([Entry(kind, occurredAt)] + entries));
    }

    /** A client's event, for the log and for the watch session's history. */
    method RecordClient(kind: Kind, occurredAt: nat)
      requires Mirrors(entries, full)
      modifies this`entries, this`full, this`events
      ensures Mirrors(entries, full) && Kinds(full) == Kinds(old(full)) + multiset{kind}
      ensures events == old(events) + [kind]
    {
      Record(kind, occurredAt);
      events := events + [kind];
    }

    /** The sessions of `next` that are new. */
    method RecordConnections(next: seq<Seen>, times: nat -> nat)
      requires Valid() && connected && OnePerAddress(next)
      modifies this`entries, this`full, this`events
      ensures Mirrors(entries, full)
      ensures Replay(first, events) == Some(Addresses(sessions) + Addresses(next))
      ensures Told(old(events), events, old(full), full)
      ensures forall k :: |old(events)| <= k < |events| ==> events[k].ClientConnected? && events[k].client in next
    {
      hide Replay, Mirrors, Kinds, Told;
      NothingTold(events, full);
      assert Addresses(sessions) + Addresses(next[..0]) == Addresses(sessions);
      var i := 0;
      while i < |next|
        invariant i <= |next| && Mirrors(entries, full) && Told(old(events), events, old(full), full)
        invariant forall k :: |old(events)| <= k < |events| ==> events[k].ClientConnected? && events[k].client in next
        invariant Replay(first, events) == Some(Addresses(sessions) + Addresses(next[..i]))
      {
        AddressesPush(next, i);
        if Position(sessions, next[i].vpnAddress).None? {
          ReplayPush(first, events, ClientConnected(next[i]));
          NotYet(next, i);
          ghost var before, log := events, full;
          RecordClient(ClientConnected(next[i]), times(i));
          TellMore(old(events), before, old(full), log, ClientConnected(next[i]), full);
          assert Addresses(sessions) + Addresses(next[..i]) + {next[i].vpnAddress}
            == Addresses(sessions) + Addresses(next[..i + 1]);
        } else {
          var at := Position(sessions, next[i].vpnAddress).value;
          assert sessions[at] in sessions;
          assert Addresses(sessions) + Addresses(next[..i + 1]) == Addresses(sessions) + Addresses(next[..i]);
        }
        i := i + 1;
      }
      assert next[..i] == next;
    }

    /** The sessions that `next` no longer has. */
    method RecordDisconnections(next: seq<Seen>, times: nat -> nat)
      requires Mirrors(entries, full) && OnePerAddress(sessions)
      requires Replay(first, events) == Some(Addresses(sessions) + Addresses(next))
      modifies this`entries, this`full, this`events
      ensures Mirrors(entries, full)
      ensures Replay(first, events) == Some(Addresses(next))
      ensures Told(old(events), events, old(full), full)
      ensures forall k :: |old(events)| <= k < |events| ==>
                events[k].ClientDisconnected? && events[k].client in sessions
    {
      hide Replay, Mirrors, Kinds, Told;
      NothingTold(events, full);
      assert sessions[0..] == sessions;
      var i := 0;
      while i < |sessions|
        invariant i <= |sessions| && Mirrors(entries, full) && Told(old(events), events, old(full), full)
        invariant forall k :: |old(events)| <= k < |events| ==>
                    events[k].ClientDisconnected? && events[k].client in sessions
        invariant Replay(first, events) == Some(Addresses(sessions[i..]) + Addresses(next))
      {
        AddressesPop(sessions, i);
        if Position(next, sessions[i].vpnAddress).None? {
          ReplayPush(first, events, ClientDisconnected(sessions[i]));
          ghost var before, log := events, full;
          RecordClient(ClientDisconnected(sessions[i]), times(i));
          TellMore(old(events), before, old(full), log, ClientDisconnected(sessions[i]), full);
          assert Addresses(sessions[i..]) + Addresses(next) - {sessions[i].vpnAddress}
            == Addresses(sessions[i + 1..]) + Addresses(next);
        } else {
          var at := Position(next, sessions[i].vpnAddress).value;
          assert next[at] in next;
          assert Addresses(sessions[i..]) + Addresses(next) == Addresses(sessions[i + 1..]) + Addresses(next);
        }
        i := i + 1;
      }
      assert Addresses(sessions[i..]) + Addresses(next) == Addresses(next);
    }

    /** A message of the watch stream.  `server` identifies the control socket's file, if it
        could be read. */
    method HandleMessage(message: Message, server: Option<(string, nat)>, times: nat -> nat)
      requires Valid()
      modifies this
      ensures Valid()
      ensures message.Unknown? ==> connected == old(connected) && sessions == old(sessions) && entries == old(entries)
      ensures message.Sessions? ==>
              connected && sessions == ToMap(message.list) && Addresses(sessions) == Addresses(message.list)
      ensures message.Sessions? && !old(connected) ==> first == Addresses(message.list) && events == []
      ensures old(connected) ==> first == old(first) && old(events) <= events
      ensures message.Sessions? && old(connected) ==>
                && serverId == old(serverId)
                && Kinds(full) == Kinds(old(full)) + multiset(events[|old(events)|..])
                && forall k :: |old(events)| <= k < |events| ==>
                     || (events[k].ClientConnected? && events[k].client in sessions)
                     || (events[k].ClientDisconnected? && events[k].client in old(sessions))
      ensures message.Sessions? && !old(connected) ==>
                var started := server.Some? && old(serverId) != Some(server.value.0);
                && Kinds(full) == Kinds(old(full)) + (if started then multiset{ServerStarted} else multiset{})
                && serverId == if started then Some(server.value.0) else old(serverId)
    {
      hide Replay, Mirrors, Kinds;
      if message.Unknown? {
        return;
      }
      ToMapKeys(message.list);
      NothingTold(events, full);
      var next := ToMap(message.list);
      if !connected {
        connected, sessions := true, next;
        first, events := Addresses(next), [];
        if server.Some? && serverId != Some(server.value.0) {
          serverId := Some(server.value.0);
          Record(ServerStarted, server.value.1);
        }
        return;
      }
      RecordConnections(next, times);
      ghost var mid, midFull := events, full;
      RecordDisconnections(next, times);
      ToldTwice(old(events), mid, events, old(full), midFull, full);
      sessions := next;
    }

    /** The end of the watch stream: everyone is gone. */
    method HandleClose(stopping: bool, times: nat -> nat)
      requires Valid()
      modifies this
      ensures Valid() && (stopping ==> connected == old(connected) && entries == old(entries))
      ensures !stopping ==> !connected && sessions == []
      ensures !stopping && old(connected) ==>
              Replay(first, events) == Some({}) && old(events) <= events && first == old(first)
      ensures !stopping && old(connected) ==>
                && Kinds(full) == Kinds(old(full)) + multiset(events[|old(events)|..]) + multiset{ServerStopped}
                && forall k :: |old(events)| <= k < |events| ==>
                     events[k].ClientDisconnected? && events[k].client in old(sessions)
      ensures !stopping && !old(connected) ==> full == old(full)
    {
      hide Replay, Mirrors, Kinds;
      if stopping {
        return;
      }
      if connected {
        assert Addresses(sessions) + Addresses([]) == Addresses(sessions);
        RecordDisconnections([], times);
        assert Addresses([]) == {};
        Record(ServerStopped, times(|sessions|));
      }
      connected, sessions := false, [];
    }
  }

  lemma {:induction false} AddressesPush(seen: seq<Seen>, i: nat)
    requires i < |seen|
    ensures Addresses(seen[..i + 1]) == Addresses(seen[..i]) + {seen[i].vpnAddress}
  {
    assert seen[..i + 1] == seen[..i] + [seen[i]];
  }

  lemma {:induction false} NotYet(seen: seq<Seen>, i: nat)
    requires i < |seen| && OnePerAddress(seen)
    ensures seen[i].vpnAddress !in Addresses(seen[..i])
  {
  }

  lemma {:induction false} AddressesPop(seen: seq<Seen>, i: nat)
    requires i < |seen| && OnePerAddress(seen)
    ensures Addresses(seen[i..]) == Addresses(seen[i + 1..]) + {seen[i].vpnAddress}
    ensures seen[i].vpnAddress !in Addresses(seen[i + 1..])
  {
    assert seen[i..] == [seen[i]] + seen[i + 1..];
  }
}
