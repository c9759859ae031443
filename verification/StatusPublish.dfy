/** When the control socket tells its watchers about the session table. */
module StatusPublish {
  import opened Net
  import opened Text
  import opened InboundOrder
  import opened SessionTable
  import opened StatusStream
  import Ledger

  // ----- The identity string -----

  /** What a session shows to the watchers. */
  datatype Face = Face(address: Ipv4, fingerprint: string, clientIp: Option<Ipv4>)

  function FaceOf(s: Session): Face {
    Face(s.address, if s.fingerprint.Some? then s.fingerprint.value else "", PeerIp(s.peer))
  }

  function Faces(list: seq<Session>): seq<Face> {
    if list == [] then []
    else (if list[0].authenticated then [FaceOf(list[0])] else []) + Faces(list[1..])
  }

  function IpText(ip: Option<Ipv4>): string {
    match ip case None => "" case Some(a) => Dotted(a)
  }

  /** write_session_identity */
  function Identity(faces: seq<Face>): string {
    if faces == [] then ""
    else
      Dotted(faces[0].address) + ":"
      + (faces[0].fingerprint + ":" + (IpText(faces[0].clientIp) + "|" + Identity(faces[1..])))
  }

  /** Fingerprints are hexadecimal text. */
  ghost predicate Clean(faces: seq<Face>) {
    forall i :: 0 <= i < |faces| ==> ':' !in faces[i].fingerprint && '|' !in faces[i].fingerprint
  }

  lemma {:induction false} IpTextReads(a: Option<Ipv4>, b: Option<Ipv4>)
    ensures '|' !in IpText(a)
    ensures IpText(a) == IpText(b) ==> a == b
  {
    if a.Some? { DottedReads(a.value); DottedCharacters(a.value, '|'); }
    if b.Some? { DottedReads(b.value); DottedCharacters(b.value, '|'); }
  }

  /** Two tables have the same identity exactly when they show the same sessions. */
  lemma {:induction false} IdentityInjective(a: seq<Face>, b: seq<Face>)
    requires Clean(a) && Clean(b)
    ensures Identity(a) == Identity(b) <==> a == b
  {
    hide Dotted, IpText;
    if a != [] && b != [] && Identity(a) == Identity(b) {
      var restA := IpText(a[0].clientIp) + "|" + Identity(a[1..]);
      var restB := IpText(b[0].clientIp) + "|" + Identity(b[1..]);
      DottedCharacters(a[0].address, ':');
      DottedCharacters(b[0].address, ':');
      FieldUnique(Dotted(a[0].address), a[0].fingerprint + ":" + restA, ':',
                  Dotted(b[0].address), b[0].fingerprint + ":" + restB);
      DottedReads(a[0].address);
      DottedReads(b[0].address);
      FieldUnique(a[0].fingerprint, restA, ':', b[0].fingerprint, restB);
      IpTextReads(a[0].clientIp, b[0].clientIp);
      IpTextReads(b[0].clientIp, a[0].clientIp);
      FieldUnique(IpText(a[0].clientIp), Identity(a[1..]), '|', IpText(b[0].clientIp), Identity(b[1..]));
      IdentityInjective(a[1..], b[1..]);
      assert a == [a[0]] + a[1..] && b == [b[0]] + b[1..];
    }
  }

  // ----- The control socket -----

  datatype Command = Watch | Disconnect(address: Ipv4) | Other

  /** What a watcher's socket answers to the writes of one flush. */
  type Stream = nat -> WriteResult

  ghost predicate Healthy(stream: Stream) {
    forall n :: !stream(n).WriteError? && stream(n) != Wrote(0)
  }

  /** A snapshot: the table it was taken of, and its text. */
  datatype Shot = Shot(table: seq<Session>, text: string)

  function Take(table: seq<Session>, frame: seq<Session> -> string): Shot {
    Shot(table, frame(table))
  }

  /** `some` are the entries of `all` at the positions `from`, in order. */
  ghost predicate Picks(some: seq<Shot>, from: seq<nat>, all: seq<Shot>) {
    && |from| == |some| && Ledger.Increasing(from)
    && forall k :: 0 <= k < |some| ==> from[k] < |all| && some[k] == all[from[k]]
  }

  /** Of the first n watchers those at the positions `from` are kept, in order. */
  ghost predicate KeptFrom(kept: seq<Watcher>, from: seq<nat>, watchers: seq<Watcher>, n: nat) {
    && |from| == |kept| <= n <= |watchers| && Ledger.Increasing(from)
    && forall k :: 0 <= k < |kept| ==> from[k] < n && kept[k] == watchers[from[k]]
  }

  lemma {:induction false} NoneKept(watchers: seq<Watcher>)
    ensures KeptFrom([], [], watchers, 0)
  {
  }

  lemma {:induction false} KeepMore(kept: seq<Watcher>, from: seq<nat>, watchers: seq<Watcher>, n: nat)
    requires KeptFrom(kept, from, watchers, n) && n < |watchers|
    ensures KeptFrom(kept, from, watchers, n + 1) && KeptFrom(kept + [watchers[n]], from + [n], watchers, n + 1)
  {
  }

  lemma {:induction false} KeptDistinct(kept: seq<Watcher>, from: seq<nat>, watchers: seq<Watcher>)
    requires KeptFrom(kept, from, watchers, |watchers|)
    requires forall i, j :: 0 <= i < j < |watchers| ==> watchers[i] != watchers[j]
    ensures |from| == |kept| && Ledger.Increasing(from)
    ensures forall k :: 0 <= k < |kept| ==> from[k] < |watchers| && kept[k] == watchers[from[k]]
    ensures forall i, j :: 0 <= i < j < |kept| ==> kept[i] != kept[j]
  {
  }

  /** What watchers that showed `shown` show after a publication. */
  function Published(shown: seq<Shot>, last: string, identity: string, shot: Shot): (r: seq<Shot>)
    ensures |r| == |shown|
  {
    if identity != last then seq(|shown|, i => shot) else shown
  }

  /** `tables` lists, watcher by watcher, the table whose snapshot it was given last. */
  class ControlSocket {
    var watchers: seq<Watcher>
    var lastIdentity: string
    ghost var tables: seq<seq<Session>>

    ghost predicate Valid()
      reads this, watchers
    {
      && |tables| == |watchers|
      && (forall i, j :: 0 <= i < j < |watchers| ==> watchers[i] != watchers[j])
      && forall i :: 0 <= i < |watchers| ==> watchers[i].Valid()
    }

    /** The newest snapshots that the watchers were given. */
    ghost function Shots(): (r: seq<Shot>)
      requires |tables| == |watchers|
      reads this, watchers
      ensures |r| == |watchers| && forall i :: 0 <= i < |r| ==> r[i] == Shot(tables[i], watchers[i].Newest())
    {
      seq(|watchers|, i requires 0 <= i < |watchers| && |tables| == |watchers| reads this, watchers =>
        Shot(tables[i], watchers[i].Newest()))
    }

    constructor ()
      ensures Valid() && watchers == [] && lastIdentity == ""
    {
      watchers, lastIdentity, tables := [], "", [];
    }

    method EnqueueAll(message: string, ghost table: seq<Session>)
      requires Valid() && IsFrame(message)
      modifies this`tables, watchers
      ensures Valid() && Shots() == seq(|watchers|, i => Shot(table, message))
    {
      hide Watcher.Valid;
      var i := 0;
      tables := seq(|watchers|, i => table);
      while i < |watchers|
        invariant i <= |watchers| && Valid() && tables == seq(|watchers|, i => table)
        invariant forall j :: 0 <= j < i ==> watchers[j].Newest() == message
      {
        watchers[i].EnqueueLatest(message);
        i := i + 1;
      }
    }

    /** A watcher that is kept has everything, or its socket would block. */
    method FlushOne(i: nat, stream: Stream) returns (alive: bool)
      requires Valid() && i < |watchers|
      modifies watchers[i]
      ensures Valid() && Shots() == old(Shots())
      ensures Healthy(stream) ==> alive
      ensures alive ==> watchers[i].Idle() || Blocks(stream)
    {
      hide Watcher.Valid;
      ghost var took: seq<nat>;
      alive, took := watchers[i].Flush(stream);
    }

    /** retain_mut(flush): watchers whose connection fails are dropped, the others keep their
        order.  `from` says where each one was. */
    method FlushAll(streams: nat -> Stream) returns (ghost from: seq<nat>)
      requires Valid()
      modifies this`watchers, this`tables, watchers
      ensures Valid() && Picks(Shots(), from, old(Shots()))
      ensures forall k :: 0 <= k < |from| ==> from[k] < |old(watchers)| && watchers[k] == old(watchers)[from[k]]
      ensures forall k :: 0 <= k < |from| ==> watchers[k].Idle() || Blocks(streams(from[k]))
      ensures forall i :: 0 <= i < |old(watchers)| && Healthy(streams(i)) ==> i in from
    {
      hide Watcher.Valid, Watcher.Idle, Shots, KeptFrom, Healthy, Blocks;
      var kept: seq<Watcher> := [];
      from := [];
      var i := 0;
      NoneKept(watchers);
      while i < |watchers|
        invariant i <= |watchers| && Valid() && watchers == old(watchers) && Shots() == old(Shots())
        invariant KeptFrom(kept, from, watchers, i)
        invariant forall j :: j in from ==> 0 <= j < i
        invariant forall j :: 0 <= j < i && j in from ==> watchers[j].Idle() || Blocks(streams(j))
        invariant forall j :: 0 <= j < i && Healthy(streams(j)) ==> j in from
      {
        var alive := FlushOne(i, streams(i));
        KeepMore(kept, from, watchers, i);
        if alive {
          kept, from := kept + [watchers[i]], from + [i];
        }
        i := i + 1;
      }
      ghost var shown := Shots();
      KeptDistinct(kept, from, watchers);
      tables := seq(|kept|, k requires 0 <= k < |kept| => shown[from[k]].table);
      watchers := kept;
      assert forall k :: 0 <= k < |from| ==> Shots()[k] == shown[from[k]];
    }

    /** publish_if_changed */
    method PublishIfChanged(table: seq<Session>, frame: seq<Session> -> string, streams: nat -> Stream)
      returns (ghost from: seq<nat>)
      requires Valid() && IsFrame(frame(table))
      modifies this, watchers
      ensures Valid() && lastIdentity == Identity(Faces(table))
      ensures Picks(Shots(), from, Published(old(Shots()), old(lastIdentity), lastIdentity, Take(table, frame)))
      ensures forall k :: 0 <= k < |from| ==> from[k] < |old(watchers)| && watchers[k] == old(watchers)[from[k]]
      ensures forall k :: 0 <= k < |from| ==> watchers[k].Idle() || Blocks(streams(from[k]))
      ensures forall i :: 0 <= i < |old(watchers)| && Healthy(streams(i)) ==> i in from
    {
      hide Watcher.Valid, Identity, Faces;
      var identity := Identity(Faces(table));
      if identity != lastIdentity {
        lastIdentity := identity;
        EnqueueAll(frame(table), table);
      }
      from := FlushAll(streams);
    }

    /** One command that was read to its end. */
    method HandleCommand(command: Command, table: seq<Session>, frame: seq<Session> -> string, stream: Stream)
      returns (table': seq<Session>)
      requires Valid() && IsFrame(frame(table))
      modifies this`watchers, this`tables
      ensures Valid() && lastIdentity == old(lastIdentity)
      ensures table' == if command.Disconnect? then Filter(NotConnectedAt(command.address), table) else table
      ensures old(watchers) <= watchers && forall i :: |old(watchers)| <= i < |watchers| ==> fresh(watchers[i])
      ensures Shots() == old(Shots()) || (command.Watch? && Shots() == old(Shots()) + [Take(table, frame)])
      ensures command.Watch? && Healthy(stream) ==> |watchers| == |old(watchers)| + 1
    {
      hide Watcher.Valid, Filter;
      table' := table;
      match command {
        case Watch =>
          var watcher := new Watcher(frame(table));
          ghost var took: seq<nat>;
          var alive: bool;
          alive, took := watcher.Flush(stream);
          if alive {
            watchers, tables := watchers + [watcher], tables + [table];
          } else {
            assert !Healthy(stream);
          }
        case Disconnect(address) =>
          table' := Filter(NotConnectedAt(address), table);
        case Other =>
      }
    }

    /** The commands of one pass, in order: to what the watchers showed, each WATCH adds the
        snapshot of the table of that moment, unless its connection fails. */
    method HandleAll(commands: seq<Command>, table: seq<Session>, frame: seq<Session> -> string, answers: nat -> Stream)
      returns (table': seq<Session>, ghost from: seq<nat>)
      requires Valid() && forall list :: IsFrame(frame(list))
      modifies this`watchers, this`tables
      ensures Valid() && lastIdentity == old(lastIdentity) && table' == TableAfter(table, commands)
      ensures old(watchers) <= watchers && forall i :: |old(watchers)| <= i < |watchers| ==> fresh(watchers[i])
      ensures Picks(Shots(), from, old(Shots()) + Registered(table, commands, frame))
      ensures (forall i :: Healthy(answers(i))) ==> |watchers| == |old(Shots()) + Registered(table, commands, frame)|
    {
      hide Valid, Shots, Healthy, IsFrame, Filter, TableAfter, Registered, Picks, Take;
      table' := table;
      from := seq(|watchers|, i => i);
      assert |tables| == |watchers| by { ValidSeats(); }
      ghost var shown := Shots();
      var k := 0;
      EmptyBatch(table, frame);
      StartPicks(shown, from);
      assert commands[..0] == [];
      assert shown + [] == shown;
      while k < |commands|
        invariant k <= |commands| && Valid() && lastIdentity == old(lastIdentity)
        invariant |tables| == |watchers| && table' == TableAfter(table, commands[..k])
        invariant Picks(Shots(), from, shown + Registered(table, commands[..k], frame))
        invariant old(watchers) <= watchers && forall i :: |old(watchers)| <= i < |watchers| ==> fresh(watchers[i])
        invariant (forall i :: Healthy(answers(i))) ==> |watchers| == |shown + Registered(table, commands[..k], frame)|
      {
        ghost var was := Shots();
        NextTable(table, commands, k);
        table' := HandleCommand(commands[k], table', frame, answers(k));
        assert |tables| == |watchers| by { ValidSeats(); }
        from := NextPicks(table, commands, frame, k, shown, was, from, Shots());
        k := k + 1;
      }
      assert commands[..k] == commands;
    }

    lemma {:induction false} ValidSeats()
      requires Valid()
      ensures |tables| == |watchers|
    {
    }

    /** process: the commands that are complete, then one publication.  The watchers that are
        left were given, in order, what `Shown` says; with no failing connection that is all of
        it.  When the table differs from the one published last, that is the snapshot of the
        table that the commands left; otherwise it is an older one, or the one of the table at
        the WATCH command.  All watchers are up to date exactly when the table differs from the
        one published last, or no WATCH is followed by a DISCONNECT of an address that then
        holds a visible session. */
    method Process(commands: seq<Command>, table: seq<Session>, frame: seq<Session> -> string,
                   answers: nat -> Stream, streams: nat -> Stream)
      returns (table': seq<Session>, ghost from: seq<nat>)
      requires Valid() && forall list :: IsFrame(frame(list))
      modifies this, watchers
      ensures Valid() && table' == TableAfter(table, commands) && lastIdentity == Identity(Faces(table'))
      ensures Picks(Shots(), from, Shown(old(Shots()), old(lastIdentity), table, commands, frame))
      ensures lastIdentity != old(lastIdentity) ==>
                forall k :: 0 <= k < |watchers| ==> tables[k] == table' && watchers[k].Newest() == frame(table')
      ensures lastIdentity == old(lastIdentity) ==>
                forall k :: 0 <= k < |watchers| ==>
                  || Shots()[k] in old(Shots())
                  || exists i :: && 0 <= i < |commands| && commands[i].Watch?
                                 && tables[k] == TableAfter(table, commands[..i])
                                 && watchers[k].Newest() == frame(tables[k])
      ensures (forall i :: Healthy(answers(i)) && Healthy(streams(i))) ==>
                Shots() == Shown(old(Shots()), old(lastIdentity), table, commands, frame)
      ensures (forall i :: Healthy(answers(i)) && Healthy(streams(i)))
              && Clean(Faces(table))
              && (forall i :: 0 <= i < |old(tables)| ==> Identity(Faces(old(tables)[i])) == old(lastIdentity)) ==>
                ((forall i :: 0 <= i < |watchers| ==> Identity(Faces(tables[i])) == lastIdentity)
                <==> || lastIdentity != old(lastIdentity)
                     || forall i, j :: 0 <= i < j < |commands| ==> !Outdates(table, commands, i, j))
    {
      hide Watcher.Valid, Identity, Faces, TableAfter, Registered, Picks, Published, Clean, Outdates, Healthy;
      hide Shown, IsFrame, Blocks;
      ghost var before, last := Shots(), lastIdentity;
      ghost var seats: seq<nat>;
      table', seats := HandleAll(commands, table, frame, answers);
      ghost var mid := Shots();
      ghost var kept := PublishIfChanged(table', frame, streams);
      from := PickTwice(Shots(), kept, mid, seats, before + Registered(table, commands, frame), last, lastIdentity,
                        Take(table', frame));
      ShownIs(before, last, table, commands, frame);
      NewestAre(Shots(), from, before, last, table, commands, frame);
      if forall i :: Healthy(answers(i)) && Healthy(streams(i)) {
        AllKept(kept, |mid|);
        AllShown(Shots(), from, before, last, table, commands, frame);
      }
    }
  }

  lemma {:induction false} EmptyBatch(table: seq<Session>, frame: seq<Session> -> string)
    ensures TableAfter(table, []) == table && Registered(table, [], frame) == []
  {
  }

  lemma {:induction false} NextTable(table: seq<Session>, commands: seq<Command>, k: nat)
    requires k < |commands|
    ensures TableAfter(table, commands[..k + 1])
         == if commands[k].Disconnect? then
              Filter(NotConnectedAt(commands[k].address), TableAfter(table, commands[..k]))
            else TableAfter(table, commands[..k])
  {
    hide Filter;
    assert commands[..k + 1][..k] == commands[..k];
  }

  lemma {:induction false} NextRegistered(table: seq<Session>, commands: seq<Command>,
                                          frame: seq<Session> -> string, k: nat)
    requires k < |commands|
    ensures Registered(table, commands[..k + 1], frame)
         == Registered(table, commands[..k], frame)
            + if commands[k].Watch? then [Take(TableAfter(table, commands[..k]), frame)] else []
  {
    hide TableAfter, Take;
    assert commands[..k + 1][..k] == commands[..k];
  }

  lemma {:induction false} StartPicks(all: seq<Shot>, from: seq<nat>)
    requires |from| == |all| && forall i :: 0 <= i < |from| ==> from[i] == i
    ensures Picks(all, from, all)
  {
  }

  lemma {:induction false} PickMore(some: seq<Shot>, from: seq<nat>, all: seq<Shot>, x: Shot)
    requires Picks(some, from, all)
    ensures Picks(some, from, all + [x]) && Picks(some + [x], from + [|all|], all + [x])
  {
  }

  /** One more command: `was` and `now` are what the watchers show before and after it. */
  lemma {:induction false} NextPicks(table: seq<Session>, commands: seq<Command>, frame: seq<Session> -> string,
                                     k: nat, shown: seq<Shot>, was: seq<Shot>, from: seq<nat>, now: seq<Shot>)
    returns (from': seq<nat>)
    requires k < |commands| && Picks(was, from, shown + Registered(table, commands[..k], frame))
    requires now == was || (commands[k].Watch? && now == was + [Take(TableAfter(table, commands[..k]), frame)])
    ensures Picks(now, from', shown + Registered(table, commands[..k + 1], frame))
    ensures |was| == |shown + Registered(table, commands[..k], frame)|
            && (commands[k].Watch? ==> |now| == |was| + 1) ==>
              |now| == |shown + Registered(table, commands[..k + 1], frame)|
  {
    hide Take, TableAfter, Registered, Picks;
    NextRegistered(table, commands, frame, k);
    var all := shown + Registered(table, commands[..k], frame);
    from' := from;
    if commands[k].Watch? {
      var shot := Take(TableAfter(table, commands[..k]), frame);
      PickMore(was, from, all, shot);
      assert shown + Registered(table, commands[..k + 1], frame) == all + [shot];
      if now != was {
        from' := from + [|all|];
      }
    } else {
      assert Registered(table, commands[..k], frame) + [] == Registered(table, commands[..k], frame);
    }
  }

  /** Picking, publishing and picking again is publishing and picking. */
  lemma {:induction false} PickTwice(some: seq<Shot>, inner: seq<nat>, mid: seq<Shot>, outer: seq<nat>,
                                     all: seq<Shot>, last: string, identity: string, shot: Shot)
    returns (from: seq<nat>)
    requires Picks(mid, outer, all) && Picks(some, inner, Published(mid, last, identity, shot))
    ensures Picks(some, from, Published(all, last, identity, shot))
    ensures Ledger.Increasing(inner) && |inner| == |some| && forall k :: 0 <= k < |inner| ==> inner[k] < |mid|
  {
    from := seq(|inner|, i requires 0 <= i < |inner| => outer[inner[i]]);
  }

  lemma {:induction false} PickAll(some: seq<Shot>, from: seq<nat>, all: seq<Shot>)
    requires Picks(some, from, all)
    ensures |some| == |all| ==> some == all
  {
    if |some| == |all| {
      forall k | 0 <= k < |some| ensures some[k] == all[k] { IncreasingFull(from, k); }
    }
  }

  /** A list in which every number below n occurs has at least n entries. */
  lemma {:induction false} AllPicked(from: seq<nat>, n: nat)
    requires forall i :: 0 <= i < n ==> i in from
    ensures |from| >= n
  {
    if n > 0 {
      assert n - 1 in from;
      var k :| 0 <= k < |from| && from[k] == n - 1;
      var others := from[..k] + from[k + 1..];
      forall i | 0 <= i < n - 1 ensures i in others {
        assert i in from;
        var j :| 0 <= j < |from| && from[j] == i;
        assert if j < k then from[..k][j] == i else from[k + 1..][j - k - 1] == i;
      }
      AllPicked(others, n - 1);
    }
  }

  lemma {:induction false} AllKept(from: seq<nat>, n: nat)
    requires Ledger.Increasing(from) && forall k :: 0 <= k < |from| ==> from[k] < n
    requires forall i :: 0 <= i < n ==> i in from
    ensures |from| == n
  {
    AllPicked(from, n);
    if from != [] { IncreasingAtLeast(from, |from| - 1); }
  }

  /** An increasing list of n numbers below n is 0, 1, .., n - 1. */
  lemma {:induction false} IncreasingFull(list: seq<nat>, i: nat)
    requires Ledger.Increasing(list) && i < |list| && forall k :: 0 <= k < |list| ==> list[k] < |list|
    ensures list[i] == i
  {
    IncreasingAtLeast(list, i);
    IncreasingAtMost(list, i);
  }

  lemma {:induction false} IncreasingAtLeast(list: seq<nat>, i: nat)
    requires Ledger.Increasing(list) && i < |list|
    ensures list[i] >= i
  {
    if i > 0 {
      IncreasingAtLeast(list, i - 1);
      assert list[i - 1] < list[i];
    }
  }

  lemma {:induction false} IncreasingAtMost(list: seq<nat>, i: nat)
    requires Ledger.Increasing(list) && i < |list| && forall k :: 0 <= k < |list| ==> list[k] < |list|
    ensures list[i] <= i
    decreases |list| - i
  {
    if i < |list| - 1 {
      IncreasingAtMost(list, i + 1);
      assert list[i] < list[i + 1];
    }
  }

  function TableAfter(table: seq<Session>, commands: seq<Command>): seq<Session> {
    if commands == [] then table
    else
      var n := |commands| - 1;
      var before := TableAfter(table, commands[..n]);
      if commands[n].Disconnect? then Filter(NotConnectedAt(commands[n].address), before) else before
  }

  /** The snapshots that the batch's new watchers were given. */
  function Registered(table: seq<Session>, commands: seq<Command>, frame: seq<Session> -> string): seq<Shot> {
    if commands == [] then []
    else
      var n := |commands| - 1;
      Registered(table, commands[..n], frame)
      + if commands[n].Watch? then [Take(TableAfter(table, commands[..n]), frame)] else []
  }

  /** What all watchers show after a batch, were no connection to fail. */
  function Shown(shown: seq<Shot>, last: string, table: seq<Session>, commands: seq<Command>,
                 frame: seq<Session> -> string): seq<Shot> {
    var final := TableAfter(table, commands);
    Published(shown + Registered(table, commands, frame), last, Identity(Faces(final)), Take(final, frame))
  }

  lemma {:induction false} ShownIs(shown: seq<Shot>, last: string, table: seq<Session>, commands: seq<Command>,
                                   frame: seq<Session> -> string)
    ensures var final := TableAfter(table, commands);
            Shown(shown, last, table, commands, frame)
            == Published(shown + Registered(table, commands, frame), last, Identity(Faces(final)), Take(final, frame))
    ensures |Shown(shown, last, table, commands, frame)| == |shown + Registered(table, commands, frame)|
  {
    hide Published, Registered, Identity, Faces, TableAfter, Take;
  }

  /** Which snapshot a watcher was given last. */
  lemma {:induction false} NewestAre(some: seq<Shot>, from: seq<nat>, shown: seq<Shot>, last: string,
                                     table: seq<Session>, commands: seq<Command>, frame: seq<Session> -> string)
    requires Picks(some, from, Shown(shown, last, table, commands, frame))
    ensures var final := TableAfter(table, commands);
            && (Identity(Faces(final)) != last ==>
                  forall k :: 0 <= k < |some| ==> some[k].table == final && some[k].text == frame(final))
            && (Identity(Faces(final)) == last ==>
                  forall k :: 0 <= k < |some| ==>
                    || some[k] in shown
                    || exists i :: && 0 <= i < |commands| && commands[i].Watch?
                                   && some[k].table == TableAfter(table, commands[..i])
                                   && some[k].text == frame(some[k].table))
  {
    hide Identity, Faces, TableAfter, Registered;
    if Identity(Faces(TableAfter(table, commands))) == last {
      forall k | 0 <= k < |some| && some[k] !in shown
        ensures exists i :: && 0 <= i < |commands| && commands[i].Watch?
                            && some[k].table == TableAfter(table, commands[..i])
                            && some[k].text == frame(some[k].table)
      {
        assert some[k] in shown + Registered(table, commands, frame);
        RegisteredAre(table, commands, frame, some[k]);
      }
    }
  }

  /** The identity of the table that a snapshot shows. */
  function About(shot: Shot): string {
    Identity(Faces(shot.table))
  }

  // ----- When the watchers are up to date -----

  /** Sessions are shown in the order of the table. */
  lemma {:induction false} FacesAppend(a: seq<Session>, b: seq<Session>)
    ensures Faces(a + b) == Faces(a) + Faces(b)
  {
    if a == [] {
      assert a + b == b;
    } else {
      hide FaceOf;
      assert (a + b)[0] == a[0] && (a + b)[1..] == a[1..] + b;
      FacesAppend(a[1..], b);
      var first := if a[0].authenticated then [FaceOf(a[0])] else [];
      assert first + (Faces(a[1..]) + Faces(b)) == (first + Faces(a[1..])) + Faces(b);
    }
  }

  /** The disconnection of an address takes a session away that watchers can see. */
  ghost predicate Hits(list: seq<Session>, address: Ipv4) {
    exists s :: s in list && s.authenticated && s.established && s.address == address
  }

  /** What one session more shows, before and after a disconnection. */
  lemma {:induction false} DisconnectLast(list: seq<Session>, address: Ipv4)
    requires list != []
    ensures var before, s := list[..|list| - 1], list[|list| - 1];
            var kept := Filter(NotConnectedAt(address), before);
            && Faces(list) == Faces(before) + Faces([s])
            && Faces(Filter(NotConnectedAt(address), list))
               == Faces(kept) + if Matches(NotConnectedAt(address), s) then Faces([s]) else []
  {
    hide Faces;
    var n := |list| - 1;
    var before, s := list[..n], list[n];
    var kept := Filter(NotConnectedAt(address), before);
    assert list == before + [s] && kept + [] == kept && Faces(kept) + [] == Faces(kept);
    FacesAppend(before, [s]);
    FacesAppend(kept, [s]);
  }

  /** A disconnection changes what is shown exactly when it hits, and then shows fewer. */
  lemma {:induction false} DisconnectFaces(list: seq<Session>, address: Ipv4)
    ensures var after := Filter(NotConnectedAt(address), list);
            && |Faces(after)| <= |Faces(list)|
            && (|Faces(after)| < |Faces(list)| <==> Hits(list, address))
            && (!Hits(list, address) ==> Faces(after) == Faces(list))
            && forall f :: f in Faces(after) ==> f in Faces(list)
  {
    if list == [] {
      NothingLeft(address);
    } else {
      hide Hits, Faces, Filter;
      var n := |list| - 1;
      DisconnectFaces(list[..n], address);
      assert list == list[..n] + [list[n]];
      HitsPush(list[..n], list[n], address);
      LastFace(list[n]);
      DisconnectLast(list, address);
    }
  }

  lemma {:induction false} NothingLeft(address: Ipv4)
    ensures Filter(NotConnectedAt(address), []) == [] && Faces([]) == [] && !Hits([], address)
  {
  }

  /** A session is shown once it is authenticated, by its address, its certificate and the
      client's own IP address. */
  lemma {:induction false} LastFace(s: Session)
    ensures !s.authenticated ==> Faces([s]) == []
    ensures s.authenticated ==>
              && |Faces([s])| == 1
              && Faces([s])[0].address == s.address
              && Faces([s])[0].fingerprint == (match s.fingerprint case Some(text) => text case None => "")
              && Faces([s])[0].clientIp == match s.peer case Inet(ip, _, _) => Some(ip) case OtherFamily(_) => None
  {
    assert [s][1..] == [];
  }

  lemma {:induction false} HitsPush(list: seq<Session>, s: Session, address: Ipv4)
    ensures Hits(list + [s], address)
            <==> Hits(list, address) || (s.authenticated && s.established && s.address == address)
  {
    if Hits(list, address) {
      var t :| t in list && t.authenticated && t.established && t.address == address;
      assert t in list + [s];
    }
    assert (list + [s])[|list|] == s;
  }

  /** Command j disconnects somebody whom the watcher registered by command i was shown. */
  ghost predicate Outdates(table: seq<Session>, commands: seq<Command>, i: nat, j: nat)
    requires i < j < |commands|
  {
    && commands[i].Watch? && commands[j].Disconnect?
    && Hits(TableAfter(table, commands[..j]), commands[j].address)
  }

  /** Between two commands the faces shrink, and stay the same exactly when nobody visible is
      disconnected. */
  lemma {:induction false} FacesBetween(table: seq<Session>, commands: seq<Command>, i: nat, n: nat)
    requires i <= n <= |commands|
    ensures var before, after := Faces(TableAfter(table, commands[..i])), Faces(TableAfter(table, commands[..n]));
            && |after| <= |before| && (forall f :: f in after ==> f in before)
            && (after == before <==> forall j :: i <= j < n && commands[j].Disconnect? ==>
                                       !Hits(TableAfter(table, commands[..j]), commands[j].address))
            && (after != before ==> |after| < |before|)
  {
    hide Hits, Faces, Filter;
    if i < n {
      FacesBetween(table, commands, i, n - 1);
      assert commands[..n][..n - 1] == commands[..n - 1];
      if commands[n - 1].Disconnect? {
        DisconnectFaces(TableAfter(table, commands[..n - 1]), commands[n - 1].address);
      }
    }
  }

  /** The snapshots given to new watchers are those of the tables at the WATCH commands. */
  lemma {:induction false} RegisteredAre(table: seq<Session>, commands: seq<Command>, frame: seq<Session> -> string,
                                         shot: Shot)
    ensures shot in Registered(table, commands, frame)
       <==> exists i ::
              && 0 <= i < |commands| && commands[i].Watch?
              && shot.table == TableAfter(table, commands[..i]) && shot.text == frame(shot.table)
  {
    hide TableAfter, Registered;
    if commands == [] {
      EmptyBatch(table, frame);
    } else {
      var n := |commands| - 1;
      RegisteredAre(table, commands[..n], frame, shot);
      assert commands[..n + 1] == commands;
      NextRegistered(table, commands, frame, n);
      assert forall i :: 0 <= i < n ==> commands[..n][i] == commands[i] && commands[..n][..i] == commands[..i];
    }
  }

  /** A watcher registered by command i was shown the final identity exactly when nobody visible
      to it is disconnected afterwards. */
  lemma {:induction false} WatchStaysIff(table: seq<Session>, commands: seq<Command>, i: nat)
    requires Clean(Faces(table)) && i < |commands| && commands[i].Watch?
    ensures Identity(Faces(TableAfter(table, commands[..i]))) == Identity(Faces(TableAfter(table, commands)))
       <==> forall j :: i < j < |commands| ==> !Outdates(table, commands, i, j)
  {
    hide Identity, Faces, TableAfter, Hits, Clean;
    var n := |commands|;
    assert commands[..n] == commands;
    CleanLater(table, commands, i);
    CleanLater(table, commands, n);
    IdentityInjective(Faces(TableAfter(table, commands[..i])), Faces(TableAfter(table, commands)));
    FacesBetween(table, commands, i, n);
    forall j | i < j < n
      ensures Outdates(table, commands, i, j)
         <==> commands[j].Disconnect? && Hits(TableAfter(table, commands[..j]), commands[j].address)
    {
    }
    if j :| i < j < n && Outdates(table, commands, i, j) {
      assert Hits(TableAfter(table, commands[..j]), commands[j].address);
    }
  }

  lemma {:induction false} CleanLater(table: seq<Session>, commands: seq<Command>, n: nat)
    requires Clean(Faces(table)) && n <= |commands|
    ensures Clean(Faces(TableAfter(table, commands[..n])))
  {
    assert commands[..0] == [] && TableAfter(table, commands[..0]) == table;
    hide TableAfter, Faces;
    FacesBetween(table, commands, 0, n);
    var after := Faces(TableAfter(table, commands[..n]));
    forall k | 0 <= k < |after| ensures ':' !in after[k].fingerprint && '|' !in after[k].fingerprint {
      assert after[k] in Faces(table);
    }
  }

  /** With no failing connection the watchers show what `Shown` says. */
  lemma {:induction false} AllShown(some: seq<Shot>, from: seq<nat>, shown: seq<Shot>, last: string,
                                    table: seq<Session>, commands: seq<Command>, frame: seq<Session> -> string)
    requires Picks(some, from, Shown(shown, last, table, commands, frame))
    requires |some| == |shown + Registered(table, commands, frame)|
    ensures some == Shown(shown, last, table, commands, frame)
    ensures Clean(Faces(table)) && (forall i :: 0 <= i < |shown| ==> Identity(Faces(shown[i].table)) == last) ==>
              ((forall i :: 0 <= i < |some| ==>
                              Identity(Faces(some[i].table)) == Identity(Faces(TableAfter(table, commands))))
              <==> || Identity(Faces(TableAfter(table, commands))) != last
                   || forall i, j :: 0 <= i < j < |commands| ==> !Outdates(table, commands, i, j))
  {
    hide Identity, Faces, TableAfter, Registered, Clean, Outdates, Picks, Published, Shown;
    ShownIs(shown, last, table, commands, frame);
    PickAll(some, from, Shown(shown, last, table, commands, frame));
    if Clean(Faces(table)) && forall i :: 0 <= i < |shown| ==> About(shown[i]) == last {
      BatchUpToDateIff(shown, last, table, commands, frame);
      assert forall i :: 0 <= i < |some| ==> some[i] in some;
    }
  }

  /** After a batch all watchers show the final table exactly when it ends with another identity
      than the one published last, or no WATCH is followed by a DISCONNECT of an address that
      then holds a visible session. */
  lemma {:induction false} BatchUpToDateIff(shown: seq<Shot>, last: string, table: seq<Session>,
                                            commands: seq<Command>, frame: seq<Session> -> string)
    requires Clean(Faces(table)) && forall i :: 0 <= i < |shown| ==> About(shown[i]) == last
    ensures (forall x :: x in Shown(shown, last, table, commands, frame) ==>
                           About(x) == Identity(Faces(TableAfter(table, commands))))
       <==> || Identity(Faces(TableAfter(table, commands))) != last
            || forall i, j :: 0 <= i < j < |commands| ==> !Outdates(table, commands, i, j)
  {
    hide Identity, Faces, TableAfter, Registered, Clean, Outdates;
    var final := Identity(Faces(TableAfter(table, commands)));
    var added := Registered(table, commands, frame);
    if final == last {
      assert Shown(shown, last, table, commands, frame) == shown + added;
      if forall x :: x in added ==> About(x) == final {
        forall i, j | 0 <= i < j < |commands| && commands[i].Watch? ensures !Outdates(table, commands, i, j) {
          RegisteredAre(table, commands, frame, Take(TableAfter(table, commands[..i]), frame));
          WatchStaysIff(table, commands, i);
        }
        forall i, j | 0 <= i < j < |commands| ensures !Outdates(table, commands, i, j) {
          OnlyWatches(table, commands, i, j);
        }
      }
      if forall i, j :: 0 <= i < j < |commands| ==> !Outdates(table, commands, i, j) {
        forall x | x in added ensures About(x) == final {
          RegisteredAre(table, commands, frame, x);
          var i :| 0 <= i < |commands| && commands[i].Watch? && x.table == TableAfter(table, commands[..i]);
          WatchStaysIff(table, commands, i);
        }
      }
      MembersOfSum(shown, added, final);
    }
  }

  lemma {:induction false} OnlyWatches(table: seq<Session>, commands: seq<Command>, i: nat, j: nat)
    requires i < j < |commands|
    ensures Outdates(table, commands, i, j) ==> commands[i].Watch?
  {
  }

  lemma {:induction false} MembersOfSum(a: seq<Shot>, b: seq<Shot>, x: string)
    requires forall i :: 0 <= i < |a| ==> About(a[i]) == x
    ensures (forall y :: y in a + b ==> About(y) == x) <==> forall y :: y in b ==> About(y) == x
  {
    hide About;
    forall y | y in b ensures y in a + b {
      assert y in a + b;
    }
    forall y | y in a + b ensures About(y) == x || y in b {
      assert y in a || y in b;
    }
  }

  /** Without a disconnection every new watcher is given the snapshot of the batch's table. */
  lemma {:induction false} QuietBatch(table: seq<Session>, commands: seq<Command>, frame: seq<Session> -> string)
    requires forall k :: 0 <= k < |commands| ==> !commands[k].Disconnect?
    ensures TableAfter(table, commands) == table
    ensures forall k :: 0 <= k < |Registered(table, commands, frame)| ==>
            Registered(table, commands, frame)[k] == Shot(table, frame(table))
  {
    hide Filter;
    if commands != [] {
      QuietBatch(table, commands[..|commands| - 1], frame);
    }
  }

  // ----- A watcher that is not -----

  function Member(peer: Peer, address: Ipv4): Session {
    Session(0, peer, address, Some("f"), true, true, false, Some(0), 0, None, EMPTY, [], 0, 0)
  }

  const ONE_CLIENT := [Member(Inet(7, 1, []), 1)]

  /** Watch, then disconnect the client. */
  const STALE_BATCH := [Watch, Disconnect(1)]

  lemma {:induction false} StaleBatchShows(frame: seq<Session> -> string)
    ensures TableAfter(ONE_CLIENT, STALE_BATCH) == []
    ensures Shown([], "", ONE_CLIENT, STALE_BATCH, frame) == [Take(ONE_CLIENT, frame)]
    ensures Identity(Faces(ONE_CLIENT)) != "" && Identity(Faces([])) == ""
  {
    var table, commands := ONE_CLIENT, STALE_BATCH;
    assert commands[..1] == [Watch] && [Watch][..0] == [];
    assert table[..0] == [] && table[1..] == [];
    assert Filter(NotConnectedAt(1), table[..0]) == [];
    assert TableAfter(table, [Watch][..0]) == table;
    assert TableAfter(table, commands[..1]) == table;
    assert TableAfter(table, commands) == [];
    assert Faces(table) == [FaceOf(table[0])];
    assert Registered(table, [Watch][..0], frame) == [];
    assert Registered(table, commands[..1], frame) == [Take(table, frame)];
    assert Registered(table, commands, frame) == [Take(table, frame)];
    DottedCharacters(1, ':');
  }

  /** The batch handled by a new control socket, with connections that never fail: the client has
      appeared since the last publication, somebody starts to watch, the client is disconnected,
      and the watcher goes on showing it. */
  method StaleWatcher(frame: seq<Session> -> string) returns (socket: ControlSocket, table: seq<Session>)
    requires forall list :: IsFrame(frame(list))
    ensures socket.Valid() && table == TableAfter(ONE_CLIENT, STALE_BATCH) == []
    ensures |socket.watchers| == 1 && socket.lastIdentity == Identity(Faces(table))
    ensures socket.watchers[0].Newest() == frame(ONE_CLIENT)
    ensures Identity(Faces(ONE_CLIENT)) != Identity(Faces(table))
  {
    hide Watcher.Valid;
    StaleBatchShows(frame);
    socket := new ControlSocket();
    var quiet: nat -> Stream := i => (n => WouldBlock);
    ghost var from: seq<nat>;
    assert forall i :: Healthy(quiet(i));
    assert socket.Shots() == [];
    table, from := socket.Process(STALE_BATCH, ONE_CLIENT, frame, quiet, quiet);
    assert socket.Shots()[0] == Take(ONE_CLIENT, frame);
  }
}
