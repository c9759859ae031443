/** The handshake rate limiter against a complete history of attempts. */
module RateLimiter {
  import opened Net

  datatype Decision = Allowed | BannedNow | Banned

  /** One call of record_attempt and its answer. */
  datatype Attempt = Attempt(time: Instant, decision: Decision)

  type History = seq<Attempt>

  datatype Limits = Limits(limit: nat, window: nat, ban: nat)

  // ----- The answers, from the history alone -----

  /** Attempts allowed since the last ban began. */
  function AllowedSinceBan(h: History): seq<Instant> {
    if h == [] then []
    else
      var n := |h| - 1;
      match h[n].decision
      case Allowed => AllowedSinceBan(h[..n]) + [h[n].time]
      case BannedNow => []
      case Banned => AllowedSinceBan(h[..n])
  }

  function BanDeadline(h: History, ban: nat): Option<Instant> {
    if h == [] then None
    else
      var n := |h| - 1;
      if h[n].decision.BannedNow? then Some(h[n].time + ban) else BanDeadline(h[..n], ban)
  }

  predicate Lapsed(deadline: Option<Instant>, now: Instant) {
    deadline.Some? ==> deadline.value <= now
  }

  /** saturating_duration_since(time) >= window */
  predicate Old(time: Instant, now: Instant, window: nat) {
    (if now >= time then now - time else 0) >= window
  }

  function Fresh(times: seq<Instant>, now: Instant, window: nat): seq<Instant> {
    if times == [] then []
    else
      var n := |times| - 1;
      Fresh(times[..n], now, window) + if Old(times[n], now, window) then [] else [times[n]]
  }

  function Decide(h: History, now: Instant, l: Limits): Decision {
    if !Lapsed(BanDeadline(h, l.ban), now) then Banned
    else if |Fresh(AllowedSinceBan(h), now, l.window)| + 1 >= l.limit then BannedNow
    else Allowed
  }

  /** A history in which every answer is the specified one. */
  ghost predicate Consistent(h: History, l: Limits) {
    && (forall i, j :: 0 <= i < j < |h| ==> h[i].time <= h[j].time)
    && (forall i :: 0 <= i < |h| ==> h[i].decision == Decide(h[..i], h[i].time, l))
  }

  // ----- The answers, from the times of the earlier ones -----

  /** The positions of the allowed attempts that still count: those of the window that ends now,
      unless a ban has begun since. */
  ghost function Counted(h: History, now: Instant, window: nat): set<nat> {
    set i: nat |
      && i < |h| && h[i].decision == Allowed && now < h[i].time + window
      && forall j :: i < j < |h| ==> h[j].decision != BannedNow
  }

  lemma {:induction false} CountedAreFresh(h: History, now: Instant, window: nat)
    requires forall i :: 0 <= i < |h| ==> h[i].time <= now
    ensures |Fresh(AllowedSinceBan(h), now, window)| == |Counted(h, now, window)|
  {
    if h == [] {
      assert Counted(h, now, window) == {};
    } else {
      var n := |h| - 1;
      CountedAreFresh(h[..n], now, window);
      CountedPush(h[..n], h[n], now, window);
      assert h == h[..n] + [h[n]];
      if h[n].decision.Allowed? {
        FreshPush(AllowedSinceBan(h[..n]), h[n].time, now, window);
      }
    }
  }

  lemma {:induction false} CountedPush(h: History, a: Attempt, now: Instant, window: nat)
    ensures Counted(h + [a], now, window)
         == match a.decision
            case Allowed => Counted(h, now, window) + if now < a.time + window then {|h|} else {}
            case BannedNow => {}
            case Banned => Counted(h, now, window)
    ensures |h| !in Counted(h, now, window)
  {
    var all := h + [a];
    assert all[|h|] == a;
    forall i: nat | i < |h|
      ensures i in Counted(all, now, window) <==> i in Counted(h, now, window) && a.decision != BannedNow
    {
      assert all[i] == h[i];
      if i in Counted(all, now, window) {
        assert forall j :: i < j < |h| ==> all[j] == h[j];
      }
    }
  }

  lemma {:induction false} DeadlineIsLast(h: History, ban: nat)
    requires forall i, j :: 0 <= i < j < |h| ==> h[i].time <= h[j].time
    ensures forall now: Instant ::
              (exists i :: 0 <= i < |h| && h[i].decision == BannedNow && now < h[i].time + ban)
              <==> !Lapsed(BanDeadline(h, ban), now)
  {
    if h != [] {
      var n := |h| - 1;
      DeadlineIsLast(h[..n], ban);
      forall now: Instant
        ensures (exists i :: 0 <= i < |h| && h[i].decision == BannedNow && now < h[i].time + ban)
                <==> !Lapsed(BanDeadline(h, ban), now)
      {
        if !Lapsed(BanDeadline(h[..n], ban), now) {
          var i :| 0 <= i < n && h[..n][i].decision == BannedNow && now < h[..n][i].time + ban;
          assert h[i] == h[..n][i];
        }
        if i :| 0 <= i < n && h[i].decision == BannedNow && now < h[i].time + ban {
          assert h[..n][i] == h[i];
        }
      }
    }
  }

  /** An address is banned from an answer BannedNow until `ban` later.  Otherwise it is allowed
      as long as this attempt stays below the limit within the window. */
  lemma {:induction false} DecideExact(h: History, now: Instant, l: Limits)
    requires forall i, j :: 0 <= i < j < |h| ==> h[i].time <= h[j].time
    requires forall i :: 0 <= i < |h| ==> h[i].time <= now
    ensures Decide(h, now, l) == Banned
       <==> exists i :: 0 <= i < |h| && h[i].decision == BannedNow && now < h[i].time + l.ban
    ensures Decide(h, now, l) == Allowed ==> |Counted(h, now, l.window)| + 1 < l.limit
    ensures Decide(h, now, l) == BannedNow ==> |Counted(h, now, l.window)| + 1 >= l.limit
  {
    DeadlineIsLast(h, l.ban);
    CountedAreFresh(h, now, l.window);
  }

  // ----- At most limit - 1 allowed attempts in any window -----

  function AllowedWithin(h: History, from: Instant, to: Instant): nat {
    if h == [] then 0
    else
      var n := |h| - 1;
      AllowedWithin(h[..n], from, to) + if h[n].decision.Allowed? && from <= h[n].time < to then 1 else 0
  }

  /** Attempts of the window that ends now were allowed after the last ban, when bans outlast
      the window. */
  lemma {:induction false} WithinAreFresh(h: History, from: Instant, now: Instant, to: Instant, l: Limits)
    requires forall i, j :: 0 <= i < j < |h| ==> h[i].time <= h[j].time
    requires forall i :: 0 <= i < |h| ==> h[i].time <= now
    requires l.ban >= l.window && now < to <= from + l.window && Lapsed(BanDeadline(h, l.ban), now)
    ensures AllowedWithin(h, from, to) <= |Fresh(AllowedSinceBan(h), now, l.window)|
  {
    if h != [] {
      var n := |h| - 1;
      match h[n].decision {
        case Allowed =>
          WithinAreFresh(h[..n], from, now, to, l);
          assert (AllowedSinceBan(h[..n]) + [h[n].time])[..|AllowedSinceBan(h[..n])|] == AllowedSinceBan(h[..n]);
        case Banned => WithinAreFresh(h[..n], from, now, to, l);
        case BannedNow =>
          assert h[n].time + l.ban <= now;
          NoneWithin(h, from, to);
      }
    }
  }

  lemma {:induction false} NoneWithin(h: History, from: Instant, to: Instant)
    requires forall i :: 0 <= i < |h| ==> h[i].time < from || h[i].decision.BannedNow?
    ensures AllowedWithin(h, from, to) == 0
  {
    if h != [] { NoneWithin(h[..|h| - 1], from, to); }
  }

  lemma {:induction false} ConsistentPrefix(h: History, n: nat, l: Limits)
    requires Consistent(h, l) && n <= |h|
    ensures Consistent(h[..n], l)
  {
    hide Decide;
    forall i | 0 <= i < n ensures h[..n][i].decision == Decide(h[..n][..i], h[..n][i].time, l) {
      assert h[..n][..i] == h[..i];
    }
  }

  lemma {:induction false} AllowedMeans(h: History, n: nat, l: Limits)
    requires Consistent(h, l) && n < |h| && h[n].decision.Allowed?
    ensures Lapsed(BanDeadline(h[..n], l.ban), h[n].time)
    ensures |Fresh(AllowedSinceBan(h[..n]), h[n].time, l.window)| + 1 < l.limit
  {
  }

  /** Among all answers given in a time span no longer than the window, at most limit - 1 are
      Allowed. */
  lemma {:induction false} AtMostLimitPerWindow(h: History, from: Instant, to: Instant, l: Limits)
    requires Consistent(h, l) && l.limit >= 1 && l.ban >= l.window && to <= from + l.window
    ensures AllowedWithin(h, from, to) <= l.limit - 1
  {
    hide Decide, BanDeadline, AllowedSinceBan, Fresh;
    if h != [] {
      var n := |h| - 1;
      ConsistentPrefix(h, n, l);
      if h[n].decision.Allowed? && from <= h[n].time < to {
        AllowedMeans(h, n, l);
        WithinAreFresh(h[..n], from, h[n].time, to, l);
      } else {
        AtMostLimitPerWindow(h[..n], from, to, l);
      }
    }
  }

  // ----- The limiter -----

  datatype AttemptState = AttemptState(attempts: seq<Instant>, bannedUntil: Option<Instant>)

  ghost predicate Sorted(times: seq<Instant>) {
    forall i, j :: 0 <= i < j < |times| ==> times[i] <= times[j]
  }

  /** What is kept for an address answers every later question as the whole history does. */
  ghost predicate Agrees(s: AttemptState, h: History, clock: Instant, l: Limits) {
    && Sorted(s.attempts)
    && (forall i :: 0 <= i < |s.attempts| ==> s.attempts[i] <= clock)
    && (forall now :: now >= clock ==> Fresh(s.attempts, now, l.window) == Fresh(AllowedSinceBan(h), now, l.window))
    && (s.bannedUntil == BanDeadline(h, l.ban) || (Lapsed(BanDeadline(h, l.ban), clock) && s.bannedUntil.None?))
  }

  const NOTHING := AttemptState([], None)

  function Kept(states: map<Ipv4, AttemptState>, address: Ipv4): AttemptState {
    if address in states then states[address] else NOTHING
  }

  function Pruned(times: seq<Instant>, now: Instant, window: nat): seq<Instant> {
    if times != [] && Old(times[0], now, window) then Pruned(times[1..], now, window) else times
  }

  lemma {:induction false} FreshTail(times: seq<Instant>, now: Instant, window: nat)
    requires times != [] && Old(times[0], now, window)
    ensures Fresh(times[1..], now, window) == Fresh(times, now, window)
  {
    var n := |times| - 1;
    if n > 0 {
      FreshTail(times[..n], now, window);
      assert times[..n][1..] == times[1..][..n - 1];
    }
  }

  lemma {:induction false} AllFresh(times: seq<Instant>, now: Instant, window: nat)
    requires Sorted(times) && (times == [] || !Old(times[0], now, window))
    ensures Fresh(times, now, window) == times
  {
    if times != [] {
      var n := |times| - 1;
      AllFresh(times[..n], now, window);
      assert times == times[..n] + [times[n]];
    }
  }

  /** Pruning a sorted deque keeps what is fresh, and changes no later answer. */
  lemma {:induction false} PrunedIsFresh(times: seq<Instant>, now: Instant, window: nat)
    requires Sorted(times)
    ensures Pruned(times, now, window) == Fresh(times, now, window)
    ensures forall later :: later >= now ==>
            Fresh(Pruned(times, now, window), later, window) == Fresh(times, later, window)
    ensures Sorted(Pruned(times, now, window))
    ensures forall t :: t in Pruned(times, now, window) ==> t in times
    decreases |times|
  {
    if times != [] && Old(times[0], now, window) {
      PrunedIsFresh(times[1..], now, window);
      FreshTail(times, now, window);
      forall later | later >= now ensures Fresh(times[1..], later, window) == Fresh(times, later, window) {
        FreshTail(times, later, window);
      }
    } else {
      AllFresh(times, now, window);
    }
  }

  lemma {:induction false} PrunedAgrees(s: AttemptState, h: History, clock: Instant, now: Instant, l: Limits)
    requires Agrees(s, h, clock, l) && clock <= now
    ensures Agrees(s.(attempts := Pruned(s.attempts, now, l.window)), h, now, l)
    ensures |Pruned(s.attempts, now, l.window)| == |Fresh(AllowedSinceBan(h), now, l.window)|
  {
    hide Fresh, Pruned, AllowedSinceBan;
    PrunedIsFresh(s.attempts, now, l.window);
    var rest := Pruned(s.attempts, now, l.window);
    forall i | 0 <= i < |rest| ensures rest[i] <= now {
      assert rest[i] in s.attempts;
    }
  }

  lemma {:induction false} FreshPush(times: seq<Instant>, t: Instant, now: Instant, window: nat)
    ensures Fresh(times + [t], now, window) == Fresh(times, now, window) + if Old(t, now, window) then [] else [t]
  {
    assert (times + [t])[..|times|] == times;
  }

  lemma {:induction false} AllowedAgrees(s: AttemptState, h: History, now: Instant, l: Limits)
    requires Agrees(s, h, now, l)
    ensures Agrees(s.(attempts := s.attempts + [now]), h + [Attempt(now, Allowed)], now, l)
  {
    assert (h + [Attempt(now, Allowed)])[..|h|] == h;
    forall later | later >= now
      ensures Fresh(s.attempts + [now], later, l.window)
           == Fresh(AllowedSinceBan(h + [Attempt(now, Allowed)]), later, l.window)
    {
      FreshPush(s.attempts, now, later, l.window);
      FreshPush(AllowedSinceBan(h), now, later, l.window);
    }
  }

  /** An address's record and its history, at time `clock`. */
  ghost predicate AddressOk(s: AttemptState, h: History, clock: Instant, l: Limits) {
    && Agrees(s, h, clock, l)
    && Consistent(h, l)
    && forall i :: 0 <= i < |h| ==> h[i].time <= clock
  }

  function HistoryAt(history: map<Ipv4, History>, address: Ipv4): History {
    if address in history then history[address] else []
  }

  lemma {:induction false} LaterOk(s: AttemptState, h: History, clock: Instant, now: Instant, l: Limits)
    requires AddressOk(s, h, clock, l) && clock <= now
    ensures AddressOk(s, h, now, l)
  {
    hide Fresh, AllowedSinceBan, BanDeadline, Consistent;
  }

  lemma {:induction false} NothingOk(l: Limits)
    ensures AddressOk(NOTHING, [], 0, l)
  {
  }

  lemma {:induction false} PrunedOk(s: AttemptState, h: History, now: Instant, l: Limits)
    requires AddressOk(s, h, now, l)
    ensures AddressOk(s.(attempts := Pruned(s.attempts, now, l.window)), h, now, l)
    ensures |Pruned(s.attempts, now, l.window)| == |Fresh(AllowedSinceBan(h), now, l.window)|
  {
    hide Agrees, Consistent;
    PrunedAgrees(s, h, now, now, l);
  }

  /** A ban that is over may be forgotten. */
  lemma {:induction false} UnbannedOk(s: AttemptState, h: History, now: Instant, l: Limits)
    requires AddressOk(s, h, now, l)
    ensures !Lapsed(s.bannedUntil, now) <==> Decide(h, now, l) == Banned
    ensures Lapsed(s.bannedUntil, now) ==> AddressOk(s.(bannedUntil := None), h, now, l)
  {
    hide Fresh, AllowedSinceBan, BanDeadline, Consistent;
  }

  /** The next attempt and its answer. */
  lemma {:induction false} RecordedOk(s: AttemptState, h: History, now: Instant, l: Limits, decision: Decision)
    requires AddressOk(s, h, now, l) && l.limit >= 1 && decision == Decide(h, now, l)
    requires decision != Banned ==> s.bannedUntil.None?
    ensures var s' := match decision
                      case Banned => s
                      case BannedNow => AttemptState([], Some(now + l.ban))
                      case Allowed => s.(attempts := s.attempts + [now]);
            AddressOk(s', h + [Attempt(now, decision)], now, l)
  {
    hide Fresh, Decide;
    var h' := h + [Attempt(now, decision)];
    assert h'[..|h|] == h;
    ConsistentPush(h, Attempt(now, decision), l);
    if decision.Allowed? {
      AllowedAgrees(s, h, now, l);
    } else if decision.BannedNow? {
      assert AllowedSinceBan(h') == [];
    }
  }

  /** What the next answer will be. */
  lemma {:induction false} HistoryDecides(s: AttemptState, h: History, clock: Instant, now: Instant, l: Limits)
    requires AddressOk(s, h, clock, l) && clock <= now
    ensures Decide(h, now, l) == Banned
       <==> exists i :: 0 <= i < |h| && h[i].decision == BannedNow && now < h[i].time + l.ban
    ensures Decide(h, now, l) == Allowed ==> |Counted(h, now, l.window)| + 1 < l.limit
    ensures Decide(h, now, l) == BannedNow ==> |Counted(h, now, l.window)| + 1 >= l.limit
    ensures Decide(h, now, l) == Banned
            || Decide(h, now, l)
               == if |Fresh(AllowedSinceBan(h), now, l.window)| + 1 >= l.limit then BannedNow else Allowed
  {
    hide Agrees, Fresh, AllowedSinceBan, BanDeadline, Counted;
    DecideExact(h, now, l);
  }

  class IpRateLimiter {
    var states: map<Ipv4, AttemptState>
    const limit: nat
    const window: nat
    const ban: nat
    ghost var history: map<Ipv4, History>
    ghost var clock: Instant

    ghost function TheLimits(): Limits { Limits(limit, window, ban) }

    ghost predicate Valid()
      reads this
    {
      limit >= 1 && forall a: Ipv4 :: AddressOk(Kept(states, a), HistoryAt(history, a), clock, TheLimits())
    }

    constructor (limit: nat, window: nat, ban: nat)
      ensures Valid() && history == map[] && clock == 0
      ensures this.limit == if limit == 0 then 1 else limit
      ensures this.window == window && this.ban == ban
    {
      hide AddressOk;
      this.limit := if limit == 0 then 1 else limit;
      this.window := window;
      this.ban := ban;
      states, history, clock := map[], map[], 0;
      new;
      NothingOk(TheLimits());
    }

    /** Time passes. */
    ghost method MoveTo(now: Instant)
      requires Valid() && clock <= now
      modifies this`clock
      ensures Valid() && clock == now
    {
      hide AddressOk;
      forall a: Ipv4 ensures AddressOk(Kept(states, a), HistoryAt(history, a), now, TheLimits()) {
        LaterOk(Kept(states, a), HistoryAt(history, a), clock, now, TheLimits());
      }
      clock := now;
    }

    /** Pops expired attempts off the front. */
    method Prune(times: seq<Instant>, now: Instant) returns (rest: seq<Instant>)
      ensures rest == Pruned(times, now, window)
    {
      rest := times;
      while rest != [] && Old(rest[0], now, window)
        invariant Pruned(rest, now, window) == Pruned(times, now, window)
        decreases |rest|
      {
        rest := rest[1..];
      }
    }

    /** Whether the address is banned, as the whole history says. */
    method CheckBan(address: Ipv4, now: Instant) returns (banned: bool)
      requires Valid() && clock <= now
      modifies this`states, this`clock
      ensures Valid() && clock == now
      ensures banned == (Decide(HistoryAt(history, address), now, TheLimits()) == Banned)
      ensures !banned ==>
                && Kept(states, address).bannedUntil.None?
                && |Kept(states, address).attempts|
                  == |Fresh(AllowedSinceBan(HistoryAt(history, address)), now, window)|
    {
      hide AddressOk, Fresh, Pruned, AllowedSinceBan, Decide;
      ghost var h, l := HistoryAt(history, address), TheLimits();
      MoveTo(now);
      UnbannedOk(Kept(states, address), h, now, l);
      PrunedOk(Kept(states, address), h, now, l);
      if address !in states {
        EmptyPruned(now, window);
        return false;
      }
      var state := states[address];
      if state.bannedUntil.Some? && state.bannedUntil.value > now {
        return true;
      }
      PrunedOk(state.(bannedUntil := None), h, now, l);
      var rest := Prune(state.attempts, now);
      states := states[address := AttemptState(rest, None)];
      banned := false;
    }

    /** The answer of the whole history, which the attempt then joins. */
    method RecordAttempt(address: Ipv4, now: Instant) returns (decision: Decision)
      requires Valid() && clock <= now
      modifies this
      ensures Valid() && clock == now
      ensures decision == Decide(old(HistoryAt(history, address)), now, TheLimits())
      ensures var h := old(HistoryAt(history, address));
              && (decision == Banned <==>
                    exists i :: 0 <= i < |h| && h[i].decision == BannedNow && now < h[i].time + ban)
              && (decision == Allowed ==> |Counted(h, now, window)| + 1 < limit)
              && (decision == BannedNow ==> |Counted(h, now, window)| + 1 >= limit)
      ensures history == old(history)[address := old(HistoryAt(history, address)) + [Attempt(now, decision)]]
    {
      hide AddressOk, Fresh, AllowedSinceBan, BanDeadline, Decide, Counted;
      ghost var h, l := HistoryAt(history, address), TheLimits();
      HistoryDecides(Kept(states, address), h, clock, now, l);
      var banned := CheckBan(address, now);
      if banned {
        decision := Banned;
      } else {
        var state := Kept(states, address);
        if |state.attempts| + 1 >= limit {
          decision := BannedNow;
        } else {
          decision := Allowed;
        }
      }
      RecordedOk(Kept(states, address), h, now, l, decision);
      ghost var checked := states;
      if decision.BannedNow? {
        states := states[address := AttemptState([], Some(now + ban))];
      } else if decision.Allowed? {
        states := states[address := Kept(states, address).(attempts := Kept(states, address).attempts + [now])];
      }
      history := history[address := h + [Attempt(now, decision)]];
      forall a: Ipv4 ensures AddressOk(Kept(states, a), HistoryAt(history, a), now, l) {
        if a != address {
          assert AddressOk(Kept(checked, a), HistoryAt(old(history), a), now, l);
        }
      }
    }

    /** Forgets the addresses for which nothing is left to remember. */
    method Purge(now: Instant)
      requires Valid() && clock <= now
      modifies this`states, this`clock
      ensures Valid() && clock == now
      ensures forall a :: a in states ==>
              a in old(states) && (states[a].attempts != [] || !Lapsed(states[a].bannedUntil, now))
    {
      hide AddressOk, Fresh, Pruned, AllowedSinceBan, Decide;
      MoveTo(now);
      var todo := states.Keys;
      while todo != {}
        invariant todo <= states.Keys <= old(states).Keys
        invariant Valid() && clock == now
        invariant forall a :: a in states && a !in todo ==>
                  states[a].attempts != [] || !Lapsed(states[a].bannedUntil, now)
        decreases |todo|
      {
        var a :| a in todo;
        todo := todo - {a};
        PurgeOne(a, now);
      }
    }

    method PurgeOne(a: Ipv4, now: Instant)
      requires Valid() && clock == now && a in states
      modifies this`states
      ensures Valid() && states.Keys <= old(states).Keys && old(states).Keys - {a} <= states.Keys
      ensures forall b :: b in states && b != a ==> states[b] == old(states)[b]
      ensures a in states ==> states[a].attempts != [] || !Lapsed(states[a].bannedUntil, now)
    {
      hide AddressOk, Fresh, Pruned, AllowedSinceBan, Decide;
      ghost var h, l := HistoryAt(history, a), TheLimits();
      var state := states[a];
      var rest := Prune(state.attempts, now);
      PrunedOk(state, h, now, l);
      UnbannedOk(AttemptState(rest, state.bannedUntil), h, now, l);
      if (state.bannedUntil.Some? && state.bannedUntil.value > now) || rest != [] {
        states := states[a := AttemptState(rest, state.bannedUntil)];
      } else {
        states := states - {a};
      }
    }
  }

  /** What the limiter has answered: fewer than `limit` attempts of an address were allowed in
      any time span no longer than the window. */
  lemma {:induction false} WindowBound(limiter: IpRateLimiter, address: Ipv4, from: Instant, to: Instant)
    requires limiter.Valid() && limiter.ban >= limiter.window && to <= from + limiter.window
    ensures AllowedWithin(HistoryAt(limiter.history, address), from, to) <= limiter.limit - 1
  {
    hide Consistent, Agrees;
    assert AddressOk(Kept(limiter.states, address), HistoryAt(limiter.history, address), limiter.clock,
                     limiter.TheLimits());
    AtMostLimitPerWindow(HistoryAt(limiter.history, address), from, to, limiter.TheLimits());
  }

  lemma {:induction false} EmptyPruned(now: Instant, window: nat)
    ensures Pruned([], now, window) == []
  {
  }

  lemma {:induction false} ConsistentPush(h: History, a: Attempt, l: Limits)
    requires Consistent(h, l) && a.decision == Decide(h, a.time, l)
    requires forall i :: 0 <= i < |h| ==> h[i].time <= a.time
    ensures Consistent(h + [a], l)
  {
    hide Decide;
    forall i | 0 <= i < |h| + 1 ensures (h + [a])[i].decision == Decide((h + [a])[..i], (h + [a])[i].time, l) {
      if i < |h| {
        assert (h + [a])[..i] == h[..i];
      } else {
        assert (h + [a])[..i] == h;
      }
    }
  }
}
