/** The client's keepalive and probe loop.  Times are in milliseconds. */
module Liveness {
  import opened Net

  const SERVER_LIVENESS_TIMEOUT := 23_000
  const HEALTH_PROBE_INTERVAL := 20_000
  const HEALTH_PROBE_RETRY_INTERVAL := 1_000

  function EffectiveKeepaliveInterval(configured: nat): (interval: nat)
    ensures interval <= HEALTH_PROBE_INTERVAL
    ensures interval <= configured
    ensures interval == configured || interval == HEALTH_PROBE_INTERVAL
  {
    if configured < HEALTH_PROBE_INTERVAL then configured else HEALTH_PROBE_INTERVAL
  }

  /** One iteration: the server's last activity as read at `check`, the time at which the probe
      and keepalive timers are looked at, and the time stamped after a push. */
  datatype Tick = Tick(activity: Instant, check: Instant, look: Instant, stamp: Instant)

  datatype Push = Probe | Keepalive

  datatype Outcome = Continued | TimedOut

  datatype Loop = Loop(probing: bool, lastProbe: Instant, lastKeepalive: Instant, outcome: Outcome,
                       pushes: seq<(Push, Tick)>)

  function Idle(tick: Tick): nat {
    if tick.check >= tick.activity then tick.check - tick.activity else 0
  }

  function Elapsed(now: Instant, since: Instant): nat {
    if now >= since then now - since else 0
  }

  function Iterated(l: Loop, tick: Tick, interval: nat): Loop {
    if l.outcome.TimedOut? then l
    else if Idle(tick) >= SERVER_LIVENESS_TIMEOUT then l.(outcome := TimedOut)
    else
      var probing := l.probing && Idle(tick) >= HEALTH_PROBE_INTERVAL;
      var probeDue := Idle(tick) >= HEALTH_PROBE_INTERVAL
                      && (!probing || Elapsed(tick.look, l.lastProbe) >= HEALTH_PROBE_RETRY_INTERVAL);
      var keepaliveDue := !probing && Elapsed(tick.look, l.lastKeepalive) >= interval;
      if probeDue then
        l.(probing := true, lastProbe := tick.stamp, lastKeepalive := tick.stamp, pushes := l.pushes + [(Probe, tick)])
      else if keepaliveDue then
        l.(probing := probing, lastKeepalive := tick.stamp, pushes := l.pushes + [(Keepalive, tick)])
      else l.(probing := probing)
  }

  /** One iteration, by the times it looks at: the silence of the server, and how long ago the
      last probe and the last push were. */
  lemma {:induction false} IterationExact(l: Loop, tick: Tick, interval: nat)
    requires l.outcome.Continued?
    ensures var after, silence := Iterated(l, tick, interval), tick.check - tick.activity;
            && (after.outcome == TimedOut <==> silence >= 23_000)
            && (silence < 23_000 ==>
                  var probe := silence >= 20_000 && (!l.probing || tick.look - l.lastProbe >= 1_000);
                  var keepalive := silence < 20_000 && (interval == 0 || tick.look >= l.lastKeepalive + interval);
                  && (after.probing <==> silence >= 20_000)
                  && after.lastProbe == (if probe then tick.stamp else l.lastProbe)
                  && after.lastKeepalive == (if probe || keepalive then tick.stamp else l.lastKeepalive)
                  && after.pushes == l.pushes + if probe then [(Probe, tick)]
                                                else if keepalive then [(Keepalive, tick)] else [])
            && (silence >= 23_000 ==> after == l.(outcome := TimedOut))
  {
    assert l.pushes + [] == l.pushes;
  }

  function Run(start: Loop, ticks: seq<Tick>, interval: nat): Loop {
    if ticks == [] then start else Iterated(Run(start, ticks[..|ticks| - 1], interval), ticks[|ticks| - 1], interval)
  }

  /** Iterations at most `gap` apart, each stamping within `lag` of its check; activity that one
      check has not seen is stamped at most `slack` before that check, because the time is taken
      before the lock under which it is stored. */
  ghost predicate Paced(ticks: seq<Tick>, gap: nat, lag: nat, slack: nat) {
    && (forall i :: 0 <= i < |ticks| ==>
                      && ticks[i].activity <= ticks[i].check <= ticks[i].look <= ticks[i].stamp <= ticks[i].check + lag)
    && (forall i :: 0 < i < |ticks| ==>
                      && ticks[i - 1].stamp <= ticks[i].check <= ticks[i - 1].check + gap
                      && (ticks[i].activity == ticks[i - 1].activity
                          || ticks[i].activity + slack >= ticks[i - 1].check))
  }

  function Start(now: Instant): Loop {
    Loop(false, now, now, Continued, [])
  }

  // ----- Three probes before a timeout -----

  /** The last `count` pushes are probes, all of them in the silence that began with the activity
      seen by the given tick. */
  ghost predicate ProbesSince(pushes: seq<(Push, Tick)>, count: nat, activity: Instant) {
    && count <= |pushes|
    && forall i :: |pushes| - count <= i < |pushes| ==>
                     && pushes[i].0.Probe? && pushes[i].1.activity == activity
                     && pushes[i].1.check >= activity + HEALTH_PROBE_INTERVAL
  }

  /** When the loop is not probing the silence is short; when it is, `count` probes have gone
      out, each at most a retry interval, an iteration and a lag after the one before. */
  ghost predicate Probing(l: Loop, tick: Tick, count: nat, gap: nat, lag: nat) {
    if !l.probing then Idle(tick) < HEALTH_PROBE_INTERVAL
    else
      && count >= 1
      && ProbesSince(l.pushes, count, tick.activity)
      && Idle(tick) >= HEALTH_PROBE_INTERVAL
      && l.lastProbe <= tick.activity + HEALTH_PROBE_INTERVAL + gap + lag
                        + (count - 1) * (HEALTH_PROBE_RETRY_INTERVAL + gap + lag)
      && tick.check < l.lastProbe + HEALTH_PROBE_RETRY_INTERVAL
  }

  lemma {:induction false} ProbingFirst(l: Loop, before: Tick, tick: Tick, interval: nat, gap: nat, lag: nat,
                                        slack: nat)
    requires Paced([before, tick], gap, lag, slack) && gap + slack < HEALTH_PROBE_INTERVAL
    requires l.outcome.Continued? && !l.probing && Idle(before) < HEALTH_PROBE_INTERVAL
    requires Idle(tick) < SERVER_LIVENESS_TIMEOUT
    ensures Probing(Iterated(l, tick, interval), tick, 1, gap, lag)
  {
    assert [before, tick][1] == tick && [before, tick][0] == before;
  }

  lemma {:induction false} ProbingAgain(l: Loop, before: Tick, tick: Tick, count: nat, interval: nat, gap: nat,
                                        lag: nat, slack: nat)
    returns (count': nat)
    requires Paced([before, tick], gap, lag, slack) && gap + slack < HEALTH_PROBE_INTERVAL
    requires l.outcome.Continued? && l.probing && Probing(l, before, count, gap, lag)
    requires Idle(tick) < SERVER_LIVENESS_TIMEOUT
    ensures Probing(Iterated(l, tick, interval), tick, count', gap, lag)
  {
    assert [before, tick][1] == tick && [before, tick][0] == before;
    var after := Iterated(l, tick, interval);
    count' := count;
    if after.probing && after.lastProbe != l.lastProbe {
      count' := count + 1;
      assert (count' - 1) * (HEALTH_PROBE_RETRY_INTERVAL + gap + lag)
          == (count - 1) * (HEALTH_PROBE_RETRY_INTERVAL + gap + lag) + (HEALTH_PROBE_RETRY_INTERVAL + gap + lag);
    }
  }

  /** An iteration that continues follows one that did. */
  lemma {:induction false} ContinuedBefore(start: Loop, ticks: seq<Tick>, interval: nat)
    requires ticks != [] && Run(start, ticks, interval).outcome.Continued?
    ensures var before := Run(start, ticks[..|ticks| - 1], interval);
            before.outcome.Continued? && Idle(ticks[|ticks| - 1]) < SERVER_LIVENESS_TIMEOUT
  {
  }

  lemma {:induction false} PacedEnd(ticks: seq<Tick>, gap: nat, lag: nat, slack: nat)
    requires |ticks| >= 2 && Paced(ticks, gap, lag, slack)
    ensures var n := |ticks| - 1;
            && Paced(ticks[..n], gap, lag, slack) && ticks[..n][n - 1] == ticks[n - 1]
            && Paced([ticks[n - 1], ticks[n]], gap, lag, slack)
            && ticks[n].check <= ticks[n].look <= ticks[n].stamp
  {
    var n := |ticks| - 1;
    assert ticks[n - 1].stamp <= ticks[n].check;
  }

  lemma {:induction false} ProbingHolds(start: Loop, ticks: seq<Tick>, interval: nat, gap: nat,
                                        lag: nat, slack: nat) returns (count: nat)
    requires ticks != [] && Paced(ticks, gap, lag, slack) && gap + slack < HEALTH_PROBE_INTERVAL
    requires !start.probing && start.outcome.Continued? && Idle(ticks[0]) < HEALTH_PROBE_INTERVAL
    requires Run(start, ticks, interval).outcome.Continued?
    ensures Probing(Run(start, ticks, interval), ticks[|ticks| - 1], count, gap, lag)
  {
    hide Paced, ProbesSince;
    var n := |ticks| - 1;
    var before := Run(start, ticks[..n], interval);
    count := 0;
    if n > 0 {
      hide Iterated, Idle;
      PacedEnd(ticks, gap, lag, slack);
      ContinuedBefore(start, ticks, interval);
      count := ProbingHolds(start, ticks[..n], interval, gap, lag, slack);
      if before.probing {
        count := ProbingAgain(before, ticks[n - 1], ticks[n], count, interval, gap, lag, slack);
      } else {
        ProbingFirst(before, ticks[n - 1], ticks[n], interval, gap, lag, slack);
        count := 1;
      }
    }
  }

  /** With iterations close enough together, the connection is given up for silence only after
      23 seconds without any activity of the server, and only after at least three probes were
      enqueued in that very silence. */
  lemma {:induction false} ThreeProbesBeforeTimeout(start: Loop, ticks: seq<Tick>, interval: nat, gap: nat, lag: nat,
                                                    slack: nat)
    requires |ticks| >= 2 && Paced(ticks, gap, lag, slack) && 3 * gap + 2 * lag <= HEALTH_PROBE_RETRY_INTERVAL
    requires gap + slack < HEALTH_PROBE_INTERVAL
    requires !start.probing && start.outcome.Continued? && Idle(ticks[0]) < HEALTH_PROBE_INTERVAL
    requires Run(start, ticks[..|ticks| - 1], interval).outcome.Continued?
    requires Run(start, ticks, interval).outcome.TimedOut?
    ensures var last := ticks[|ticks| - 1];
            && last.check >= last.activity + SERVER_LIVENESS_TIMEOUT
            && ProbesSince(Run(start, ticks, interval).pushes, 3, last.activity)
  {
    hide Paced;
    var n := |ticks| - 1;
    PacedEnd(ticks, gap, lag, slack);
    var count := ProbingHolds(start, ticks[..n], interval, gap, lag, slack);
    TimeoutAfter(Run(start, ticks[..n], interval), ticks[n - 1], ticks[n], count, interval, gap, lag, slack);
  }

  lemma {:induction false} TimeoutAfter(l: Loop, before: Tick, tick: Tick, count: nat, interval: nat, gap: nat,
                                        lag: nat, slack: nat)
    requires Paced([before, tick], gap, lag, slack) && 3 * gap + 2 * lag <= HEALTH_PROBE_RETRY_INTERVAL
    requires gap + slack < HEALTH_PROBE_INTERVAL
    requires l.outcome.Continued? && Probing(l, before, count, gap, lag)
             && Iterated(l, tick, interval).outcome.TimedOut?
    ensures tick.check >= tick.activity + SERVER_LIVENESS_TIMEOUT
    ensures ProbesSince(Iterated(l, tick, interval).pushes, 3, tick.activity)
  {
    assert [before, tick][1] == tick && [before, tick][0] == before;
    var step := HEALTH_PROBE_RETRY_INTERVAL + gap + lag;
    assert count == 1 ==> (count - 1) * step == 0;
    assert count == 2 ==> (count - 1) * step == step;
  }

  // ----- Keepalives -----

  /** How long ago the last push was, at the end of an iteration. */
  ghost predicate Recent(l: Loop, tick: Tick, interval: nat) {
    if l.probing then l.lastKeepalive == l.lastProbe && tick.check < l.lastKeepalive + HEALTH_PROBE_RETRY_INTERVAL
    else tick.look < l.lastKeepalive + interval || l.lastKeepalive == tick.stamp
  }

  lemma {:induction false} RecentHolds(start: Loop, ticks: seq<Tick>, interval: nat, gap: nat, lag: nat, slack: nat)
    requires ticks != [] && Paced(ticks, gap, lag, slack)
    requires !start.probing && start.outcome.Continued? && Run(start, ticks, interval).outcome.Continued?
    ensures Recent(Run(start, ticks, interval), ticks[|ticks| - 1], interval)
  {
    var n := |ticks| - 1;
    if n > 0 {
      hide Paced, Iterated;
      PacedEnd(ticks, gap, lag, slack);
      ContinuedBefore(start, ticks, interval);
      RecentHolds(start, ticks[..n], interval, gap, lag, slack);
      RecentStep(Run(start, ticks[..n], interval), ticks[n - 1], ticks[n], interval);
    } else {
      assert Run(start, ticks[..0], interval) == start;
    }
  }

  lemma {:induction false} RecentStep(l: Loop, before: Tick, tick: Tick, interval: nat)
    requires l.outcome.Continued? && Recent(l, before, interval) && Iterated(l, tick, interval).outcome.Continued?
    requires tick.check <= tick.look <= tick.stamp
    ensures Recent(Iterated(l, tick, interval), tick, interval)
  {
  }

  /** How long a push may take after the one before: the effective keepalive interval, or the
      retry interval of the probes. */
  function Patience(l: Loop, interval: nat): nat {
    if l.probing then HEALTH_PROBE_RETRY_INTERVAL else interval
  }

  /** In every iteration: the check comes at most that time and one iteration after the last
      push, what is pushed then at most the lag later, and at the end the last push is recent
      again. */
  lemma {:induction false} KeepaliveGap(start: Loop, ticks: seq<Tick>, configured: nat, gap: nat, lag: nat, slack: nat)
    requires |ticks| >= 2 && Paced(ticks, gap, lag, slack) && !start.probing && start.outcome.Continued?
    requires Run(start, ticks, EffectiveKeepaliveInterval(configured)).outcome.Continued?
    ensures var interval := EffectiveKeepaliveInterval(configured);
            var before, after := Run(start, ticks[..|ticks| - 1], interval), Run(start, ticks, interval);
            var last := ticks[|ticks| - 1];
            && last.check <= before.lastKeepalive + Patience(before, interval) + gap
            && (if after.pushes == before.pushes then after.lastKeepalive == before.lastKeepalive
                else after.lastKeepalive <= before.lastKeepalive + Patience(before, interval) + gap + lag)
            && (last.check < after.lastKeepalive + Patience(after, interval) || after.lastKeepalive == last.stamp)
  {
    hide Iterated;
    var n := |ticks| - 1;
    var interval := EffectiveKeepaliveInterval(configured);
    PacedEnd(ticks, gap, lag, slack);
    ContinuedBefore(start, ticks, interval);
    RecentHolds(start, ticks[..n], interval, gap, lag, slack);
    GapStep(Run(start, ticks[..n], interval), ticks[n - 1], ticks[n], interval, gap, lag, slack);
  }

  lemma {:induction false} GapStep(l: Loop, before: Tick, tick: Tick, interval: nat, gap: nat, lag: nat, slack: nat)
    requires Paced([before, tick], gap, lag, slack)
    requires l.outcome.Continued? && Recent(l, before, interval) && Iterated(l, tick, interval).outcome.Continued?
    ensures var after := Iterated(l, tick, interval);
            && tick.check <= l.lastKeepalive + Patience(l, interval) + gap
            && (if after.pushes == l.pushes then after.lastKeepalive == l.lastKeepalive
                else after.lastKeepalive <= l.lastKeepalive + Patience(l, interval) + gap + lag)
            && (tick.check < after.lastKeepalive + Patience(after, interval) || after.lastKeepalive == tick.stamp)
  {
    assert [before, tick][1] == tick && [before, tick][0] == before;
    var after := Iterated(l, tick, interval);
    assert |after.pushes| == |l.pushes| || |after.pushes| == |l.pushes| + 1;
    RecentStep(l, before, tick, interval);
  }

  // ----- The loop, as it runs -----

  class KeepaliveLoop {
    const interval: nat
    var probing: bool
    var lastProbe: Instant
    var lastKeepalive: Instant
    var outcome: Outcome
    ghost var pushes: seq<(Push, Tick)>

    ghost function View(): Loop
      reads this
    {
      Loop(probing, lastProbe, lastKeepalive, outcome, pushes)
    }

    constructor (configured: nat, now: Instant)
      ensures View() == Start(now) && interval == EffectiveKeepaliveInterval(configured)
    {
      interval := EffectiveKeepaliveInterval(configured);
      probing, lastProbe, lastKeepalive, outcome, pushes := false, now, now, Continued, [];
    }

    /** One iteration; the plaintext queue is open. */
    method Iterate(tick: Tick)
      requires outcome.Continued?
      modifies this
      ensures View() == Iterated(old(View()), tick, interval)
    {
      if Idle(tick) >= SERVER_LIVENESS_TIMEOUT {
        outcome := TimedOut;
        return;
      }
      if Idle(tick) < HEALTH_PROBE_INTERVAL {
        probing := false;
      }
      var probeDue := Idle(tick) >= HEALTH_PROBE_INTERVAL
                      && (!probing || Elapsed(tick.look, lastProbe) >= HEALTH_PROBE_RETRY_INTERVAL);
      var keepaliveDue := !probing && Elapsed(tick.look, lastKeepalive) >= interval;
      if probeDue || keepaliveDue {
        pushes := pushes + [(if probeDue then Probe else Keepalive, tick)];
        lastKeepalive := tick.stamp;
        if probeDue {
          probing := true;
          lastProbe := tick.stamp;
        }
      }
    }
  }
}
