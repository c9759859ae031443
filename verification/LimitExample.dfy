/** A run in which more sessions are established than `max_clients`: two handshakes with the
    same certificate, at an address that requires a login, are pending together. */
module LimitExample {
  import opened Net
  import opened InboundOrder
  import opened Login
  import opened SessionTable
  import opened ServerMachine

  const ONE_CLIENT := Config(1, 2, false, 1000, Policy(0, 24, false, false))
  const BOUND := Update(map[5 := "f"], map[5 := Credentials([1], [2])])
  const FIRST := Inet(7, 1000, [])
  const SECOND := Inet(7, 1001, [])
  const WELCOME := Admission(false, CookieVerified, Allowed, true)
  const MATCH := Complete("f", 5, Passes, Passes)

  ghost predicate Run(states: seq<State>, steps: seq<Step>) {
    IsRun(ONE_CLIENT, BOUND, states, steps)
  }

  /** No session has anything to drain and none is authenticated. */
  predicate Quiet(st: State) {
    && Shape(st) && st.phase.Top? && !st.stopped
    && forall i :: 0 <= i < |st.sessions| ==> !NeedsTurn(st.sessions[i]) && !st.sessions[i].authenticated
  }

  lemma {:induction false} QuietDrain(st: State, i: nat, oracles: seq<DrainOracle>)
    requires Quiet(st) && i <= |st.sessions| == |oracles|
    ensures DrainFrom(ONE_CLIENT, st, i, oracles) == st
    decreases |oracles| - i
  {
    hide DrainTurn, NeedsTurn;
    if i < |oracles| {
      QuietDrain(st, i + 1, oracles);
    }
  }

  lemma {:induction false} QuietDedupe(list: seq<Session>)
    requires forall i :: 0 <= i < |list| ==> !list[i].authenticated
    ensures KeepLast(list) == list
  {
    if list != [] {
      QuietDedupe(list[1..]);
    }
  }

  lemma {:induction false} Extend(states: seq<State>, steps: seq<Step>, step: Step, st: State)
    requires Run(states, steps) && Next(ONE_CLIENT, states[|steps|], step, st)
    ensures Run(states + [st], steps + [step])
  {
    hide Next, Initial;
    var states', steps' := states + [st], steps + [step];
    forall k | 0 <= k < |steps'| ensures Next(ONE_CLIENT, states'[k], steps'[k], states'[k + 1]) {
      if k < |steps| {
        assert states'[k] == states[k] && steps'[k] == steps[k] && states'[k + 1] == states[k + 1];
      }
    }
  }

  /** A drain pass, a dedupe pass and one datagram. */
  lemma {:induction false} Round(states: seq<State>, steps: seq<Step>, peer: Peer, h: HandshakeResult, st: State)
    returns (states': seq<State>, steps': seq<Step>)
    requires Run(states, steps) && Quiet(states[|steps|])
    requires ReceiveStep(ONE_CLIENT, states[|steps|].(phase := Deduped), Datagram(peer, []), WELCOME, Accepted, h,
                         [], st)
    ensures Run(states', steps') && states'[|steps'|] == st
  {
    hide ReceiveStep, NeedsTurn, Run;
    RunLength(states, steps);
    var before := states[|steps|];
    var oracles := seq(|before.sessions|, i => DrainOracle(WantRead, true, Accepted));
    QuietDrain(before, 0, oracles);
    QuietDedupe(before.sessions);
    var drained := before.(phase := Drained);
    var deduped := before.(phase := Deduped);
    Extend(states, steps, Drain(oracles), drained);
    Extend(states + [drained], steps + [Drain(oracles)], Dedupe, deduped);
    states', steps' := states + [drained] + [deduped], steps + [Drain(oracles)] + [Dedupe];
    Extend(states', steps', Receive(Datagram(peer, []), WELCOME, Accepted, h, []), st);
    states', steps' := states' + [st], steps' + [Receive(Datagram(peer, []), WELCOME, Accepted, h, [])];
    RunLength(states', steps');
  }

  lemma {:induction false} RunLength(states: seq<State>, steps: seq<Step>)
    requires Run(states, steps)
    ensures |states| == |steps| + 1
  {
  }

  const WAITING := Session(0, FIRST, 0, None, false, false, false, None, 0, Some(1), EMPTY, [], 0, 0)

  const START := State([], 0, 0, Top, false, [BOUND], 1, 0, Ticking, false, [])

  /** The first peer's handshake has begun. */
  const STAGE_1 := START.(sessions := [WAITING], nextSerial := 1, wakePending := true)

  /** The second peer has completed its handshake, the first one still waits. */
  const STAGE_2 := Establish(Admit(STAGE_1, SECOND), 1, MATCH)

  /** The first peer has completed its handshake too. */
  const STAGE_3 := Establish(ArriveAt(STAGE_2, 0, [], Accepted), 0, MATCH)

  lemma {:induction false} Stage1()
    ensures ReceiveStep(ONE_CLIENT, START.(phase := Deduped), Datagram(FIRST, []), WELCOME, Accepted, Incomplete(1),
                        [], STAGE_1)
  {
  }

  lemma {:induction false} CountPair(q: Query, list: seq<Session>)
    requires |list| == 2
    ensures Count(q, list) == (if Matches(q, list[0]) then 1 else 0) + (if Matches(q, list[1]) then 1 else 0)
  {
    hide Matches;
    CountOne(q, list[0]);
    CountPush(q, [list[0]], list[1]);
    assert [list[0]] + [list[1]] == list;
  }

  lemma {:induction false} Stage2()
    ensures ReceiveStep(ONE_CLIENT, STAGE_1.(phase := Deduped), Datagram(SECOND, []), WELCOME, Accepted, MATCH,
                        [], STAGE_2)
  {
    hide Count;
    CountOne(Established, WAITING);
    CountOne(PendingFrom(7), WAITING);
    CountOne(Pending, WAITING);
    assert [WAITING][1..] == [];
    var st := STAGE_1.(phase := Deduped);
    assert Locate(ONE_CLIENT, st, SECOND, WELCOME) == Located(Admit(st, SECOND), Some(1), true);
    CountPair(Established, Admit(STAGE_1, SECOND).sessions);
    assert BOUND.bindings[5] == "f";
  }

  lemma {:induction false} Stage3()
    ensures ReceiveStep(ONE_CLIENT, STAGE_2.(phase := Deduped), Datagram(FIRST, []), WELCOME, Accepted, MATCH,
                        [], STAGE_3)
  {
    hide Count;
    CountPair(Established, ArriveAt(STAGE_2, 0, [], Accepted).sessions);
    CountPair(DuplicateOf(5, FIRST), STAGE_3.sessions);
    assert BOUND.bindings[5] == "f";
  }

  lemma {:induction false} LimitCanBeExceeded()
    ensures exists states: seq<State>, steps: seq<Step> ::
              && IsRun(ONE_CLIENT, BOUND, states, steps)
              && Count(Established, states[|steps|].sessions) > ONE_CLIENT.maxClients
  {
    hide ReceiveStep, IsRun, Count;
    var states, steps := Start();
    Stage1();
    states, steps := Round(states, steps, FIRST, Incomplete(1), STAGE_1);
    Stage2();
    states, steps := Round(states, steps, SECOND, MATCH, STAGE_2);
    Stage3();
    states, steps := Round(states, steps, FIRST, MATCH, STAGE_3);
    RunLength(states, steps);
    CountPair(Established, STAGE_3.sessions);
  }

  lemma {:induction false} Start() returns (states: seq<State>, steps: seq<Step>)
    ensures Run(states, steps) && states[|steps|] == START
  {
    states, steps := [START], [];
  }
}
