/** Session records and the Vec operations the workers use on the shared table.

    A predicate passed to `retain` or `filter` is a value of type Query, so that one
    Filter and one Count serve every call site. */
module SessionTable {
  import opened Net
  import opened InboundOrder
  import opened Login

  const SESSION_IDLE_TIMEOUT := 300_000
  const ESTABLISHED_IDLE_TIMEOUT := 120_000
  const HANDSHAKE_TIMEOUT := 10_000
  const MAX_PENDING_PER_IP := 2

  /** `serial`, `boundUnder` and `retainedAfter` are history: the order of admission, the
      configuration decrypt used when it established the session, and the newest
      configuration whose retain had run by then. */
  datatype Session = Session(
    serial: nat,
    peer: Peer,
    address: Ipv4,
    fingerprint: Option<Fingerprint>,
    established: bool,
    authenticated: bool,
    loginAttempted: bool,
    establishedAt: Option<Instant>,
    lastActivity: Instant,
    dtlsDeadline: Option<Instant>,
    inbound: Inbound,
    rawTx: seq<Bytes>,
    boundUnder: nat,
    retainedAfter: nat)

  datatype Update = Update(bindings: map<Ipv4, Fingerprint>, logins: map<Ipv4, Credentials>)

  function Lookup<K, V>(m: map<K, V>, k: K): Option<V> {
    if k in m then Some(m[k]) else None
  }

  function IdleLimit(s: Session): nat {
    if s.authenticated then SESSION_IDLE_TIMEOUT
    else if s.established then ESTABLISHED_IDLE_TIMEOUT
    else HANDSHAKE_TIMEOUT
  }

  datatype Query =
    | Pending
    | Established
    | PendingFrom(ip: Ipv4)
    | NotPendingFrom(ip: Ipv4)
    | NotConnectedAt(address: Ipv4)
    | DuplicateOf(address: Ipv4, peer: Peer)
    | NotDuplicateOf(address: Ipv4, peer: Peer)
    | ReceiverFor(address: Ipv4)
    | Unexpired(now: Instant, maxLifetime: nat)
    | Authorised(newUpdate: Update, oldLogins: map<Ipv4, Credentials>)
    | SerialOutside(serials: set<nat>)

  predicate Matches(q: Query, s: Session) {
    match q
    case Pending => !s.established
    case Established => s.established
    case PendingFrom(ip) => !s.established && PeerIp(s.peer) == Some(ip)
    case NotPendingFrom(ip) => s.established || PeerIp(s.peer) != Some(ip)
    case NotConnectedAt(address) => !(s.established && s.address == address)
    case DuplicateOf(address, peer) => s.established && s.address == address && s.peer != peer
    case NotDuplicateOf(address, peer) => !(s.established && s.address == address && s.peer != peer)
    case ReceiverFor(address) => s.authenticated && s.address == address
    case Unexpired(now, maxLifetime) =>
      // elapsed() saturates at zero
      && (if now >= s.lastActivity then now - s.lastActivity else 0) < IdleLimit(s)
      && !(s.establishedAt.Some? && now >= s.establishedAt.value && now - s.establishedAt.value >= maxLifetime)
    case Authorised(newUpdate, oldLogins) =>
      && s.established
      && s.fingerprint.Some?
      && Lookup(newUpdate.bindings, s.address) == s.fingerprint
      && Lookup(oldLogins, s.address) == Lookup(newUpdate.logins, s.address)
    case SerialOutside(serials) => s.serial !in serials
  }

  // ----- Vec operations -----

  function Count(q: Query, list: seq<Session>): nat {
    if list == [] then 0
    else Count(q, list[..|list| - 1]) + if Matches(q, list[|list| - 1]) then 1 else 0
  }

  function Filter(q: Query, list: seq<Session>): seq<Session> {
    if list == [] then []
    else Filter(q, list[..|list| - 1]) + if Matches(q, list[|list| - 1]) then [list[|list| - 1]] else []
  }

  function SwapRemove<T>(list: seq<T>, i: nat): seq<T>
    requires i < |list|
  {
    var n := |list| - 1;
    if i == n then list[..n] else list[..n][i := list[n]]
  }

  function PositionOf(peer: Peer, list: seq<Session>): (at: Option<nat>)
    ensures at.Some? ==> at.value < |list| && list[at.value].peer == peer
    ensures at.None? ==> forall s :: s in list ==> s.peer != peer
  {
    if list == [] then None
    else if list[0].peer == peer then Some(0)
    else
      match PositionOf(peer, list[1..])
      case None => None
      case Some(at) => Some(at + 1)
  }

  // ----- Their laws -----

  lemma SwapRemoveIsRemoval<T>(list: seq<T>, i: nat)
    requires i < |list|
    ensures |SwapRemove(list, i)| == |list| - 1
    ensures multiset(SwapRemove(list, i)) == multiset(list) - multiset{list[i]}
    ensures multiset(SwapRemove(list, i)) <= multiset(list)
  {
    var n := |list| - 1;
    assert list == list[..n] + [list[n]];
  }

  lemma {:induction false} FilterIsRemoval(q: Query, list: seq<Session>)
    ensures multiset(Filter(q, list)) <= multiset(list)
    ensures forall s :: s in Filter(q, list) <==> s in list && Matches(q, s)
    ensures |Filter(q, list)| == Count(q, list) <= |list|
  {
    if list != [] {
      FilterIsRemoval(q, list[..|list| - 1]);
      assert list == list[..|list| - 1] + [list[|list| - 1]];
    }
  }

  /** The positions at which the query holds. */
  ghost function Positions(q: Query, list: seq<Session>): set<int> {
    set i | 0 <= i < |list| && Matches(q, list[i])
  }

  lemma {:induction false} PositionsLast(q: Query, list: seq<Session>)
    requires list != []
    ensures var n := |list| - 1;
            Positions(q, list) == Positions(q, list[..n]) + if Matches(q, list[n]) then {n} else {}
  {
    hide Matches;
  }

  lemma {:induction false} CountIs(q: Query, list: seq<Session>)
    ensures Count(q, list) == |Positions(q, list)|
  {
    hide Matches;
    if list == [] {
      assert Positions(q, list) == {};
    } else {
      var n := |list| - 1;
      CountIs(q, list[..n]);
      PositionsLast(q, list);
      assert n !in Positions(q, list[..n]);
      hide Positions;
    }
  }

  lemma {:induction false} CountAppend(q: Query, list: seq<Session>, tail: seq<Session>)
    ensures Count(q, list + tail) == Count(q, list) + Count(q, tail)
  {
    if tail == [] {
      assert list + tail == list;
    } else {
      CountAppend(q, list, tail[..|tail| - 1]);
      assert (list + tail)[..|list + tail| - 1] == list + tail[..|tail| - 1];
    }
  }

  lemma CountPush(q: Query, list: seq<Session>, s: Session)
    ensures Count(q, list + [s]) == Count(q, list) + if Matches(q, s) then 1 else 0
  {
    assert (list + [s])[..|list|] == list;
  }

  lemma CountOne(q: Query, s: Session)
    ensures Count(q, [s]) == if Matches(q, s) then 1 else 0
  {
    assert [s][..0] == [];
    assert Count(q, [s][..0]) == 0;
  }

  /** Counting after the element at i has been taken out, wherever the others went. */
  lemma CountWithout(q: Query, list: seq<Session>, i: nat)
    requires i < |list|
    ensures Count(q, list) == Count(q, list[..i] + list[i + 1..]) + if Matches(q, list[i]) then 1 else 0
    ensures multiset(list[..i] + list[i + 1..]) == multiset(list) - multiset{list[i]}
  {
    CountAppend(q, list[..i], list[i + 1..]);
    assert list == list[..i] + ([list[i]] + list[i + 1..]);
    CountAppend(q, list[..i], [list[i]] + list[i + 1..]);
    CountAppend(q, [list[i]], list[i + 1..]);
    CountOne(q, list[i]);
  }

  /** Removing sessions never raises a count. */
  lemma {:induction false} CountMonotone(q: Query, less: seq<Session>, more: seq<Session>)
    requires multiset(less) <= multiset(more)
    ensures Count(q, less) <= Count(q, more)
    ensures |less| <= |more|
    decreases |less|
  {
    if less != [] {
      var s := less[0];
      assert s in multiset(less);
      var j :| 0 <= j < |more| && more[j] == s;
      CountWithout(q, less, 0);
      CountWithout(q, more, j);
      CountMonotone(q, less[..0] + less[1..], more[..j] + more[j + 1..]);
    }
  }

  lemma CountPermuted(q: Query, a: seq<Session>, b: seq<Session>)
    requires multiset(a) == multiset(b)
    ensures Count(q, a) == Count(q, b)
  {
    CountMonotone(q, a, b);
    CountMonotone(q, b, a);
  }

  lemma CountSwapRemove(q: Query, list: seq<Session>, i: nat)
    requires i < |list|
    ensures Count(q, SwapRemove(list, i)) == Count(q, list) - if Matches(q, list[i]) then 1 else 0
  {
    SwapRemoveIsRemoval(list, i);
    CountWithout(q, list, i);
    CountPermuted(q, SwapRemove(list, i), list[..i] + list[i + 1..]);
  }

  lemma CountUpdate(q: Query, list: seq<Session>, i: nat, s: Session)
    requires i < |list|
    ensures Count(q, list[i := s])
         == Count(q, list) - (if Matches(q, list[i]) then 1 else 0) + (if Matches(q, s) then 1 else 0)
  {
    CountWithout(q, list, i);
    CountWithout(q, list[i := s], i);
    assert list[i := s][..i] + list[i := s][i + 1..] == list[..i] + list[i + 1..];
  }

  lemma {:induction false} CountZeroIff(q: Query, list: seq<Session>)
    ensures Count(q, list) > 0 <==> exists s :: s in list && Matches(q, s)
  {
    if list != [] {
      CountZeroIff(q, list[..|list| - 1]);
      assert list == list[..|list| - 1] + [list[|list| - 1]];
    }
  }

  lemma {:induction false} CountTwo(q: Query, list: seq<Session>, i: nat, j: nat)
    requires i < j < |list| && Matches(q, list[i]) && Matches(q, list[j])
    ensures Count(q, list) >= 2
  {
    var n := |list| - 1;
    if j < n {
      CountTwo(q, list[..n], i, j);
    } else {
      CountZeroIff(q, list[..n]);
      assert list[..n][i] in list[..n];
    }
  }

  lemma {:induction false} CountSplit(list: seq<Session>)
    ensures Count(Pending, list) + Count(Established, list) == |list|
  {
    if list != [] {
      CountSplit(list[..|list| - 1]);
    }
  }

  /** Two runs of equal length whose elements match q alike have the same count. */
  lemma {:induction false} CountSame(q: Query, a: seq<Session>, b: seq<Session>)
    requires |a| == |b|
    requires forall i :: 0 <= i < |a| ==> (Matches(q, a[i]) <==> Matches(q, b[i]))
    ensures Count(q, a) == Count(q, b)
  {
    if a != [] {
      CountSame(q, a[..|a| - 1], b[..|b| - 1]);
    }
  }

  // ----- No two sessions share a peer or a serial -----

  ghost predicate Distinct(list: seq<Session>) {
    && (forall i, j :: 0 <= i < j < |list| ==> list[i].peer != list[j].peer)
    && (forall i, j :: 0 <= i < j < |list| ==> list[i].serial != list[j].serial)
  }

  lemma TwiceInMultiset<T>(list: seq<T>, i: nat, j: nat)
    requires i < j < |list| && list[i] == list[j]
    ensures multiset(list)[list[i]] >= 2
  {
    assert list == list[..j] + ([list[j]] + list[j + 1..]);
    assert list[i] in list[..j];
    assert multiset(list[..j])[list[i]] >= 1;
  }

  lemma {:induction false} OnceInMultiset(list: seq<Session>, s: Session)
    requires Distinct(list)
    ensures multiset(list)[s] <= 1
  {
    if list != [] {
      var n := |list| - 1;
      OnceInMultiset(list[..n], s);
      assert list == list[..n] + [list[n]];
      assert list[n] !in multiset(list[..n]);
    }
  }

  lemma DistinctMonotone(less: seq<Session>, more: seq<Session>)
    requires multiset(less) <= multiset(more) && Distinct(more)
    ensures Distinct(less)
  {
    forall i, j | 0 <= i < j < |less|
      ensures less[i].peer != less[j].peer && less[i].serial != less[j].serial
    {
      assert less[i] in multiset(more) && less[j] in multiset(more);
      if less[i] == less[j] {
        TwiceInMultiset(less, i, j);
        OnceInMultiset(more, less[i]);
        assert false;
      } else {
        var a :| 0 <= a < |more| && more[a] == less[i];
        var b :| 0 <= b < |more| && more[b] == less[j];
      }
    }
  }

  /** A query that only one session of a distinct list can match counts at most one. */
  lemma {:induction false} CountAtMostOne(q: Query, list: seq<Session>, s: Session)
    requires Distinct(list)
    requires forall t :: t in list && Matches(q, t) ==> t == s
    ensures Count(q, list) <= 1
  {
    if list != [] {
      var n := |list| - 1;
      assert list == list[..n] + [list[n]];
      CountAtMostOne(q, list[..n], s);
      if Matches(q, list[n]) {
        CountZeroIff(q, list[..n]);
        OnceInMultiset(list, s);
      }
    }
  }
}
