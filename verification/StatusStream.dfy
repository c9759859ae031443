/** The session-status channel: the control socket's watchers, and the line reader at the other
    end.

    A frame is one snapshot followed by a newline; the snapshot is JSON text without one. */
module StatusStream {
  import opened Net
  import opened Text
  import Ledger

  const NEWLINE := '\n'

  predicate IsFrame(frame: string) {
    |frame| >= 2 && frame[|frame| - 1] == NEWLINE && NEWLINE !in frame[..|frame| - 1]
  }

  function Line(frame: string): string {
    if frame == "" then "" else frame[..|frame| - 1]
  }

  function Concat(frames: seq<string>): string {
    if frames == [] then "" else Concat(frames[..|frames| - 1]) + frames[|frames| - 1]
  }

  function Pick(frames: seq<string>, chosen: seq<nat>): seq<string>
    requires forall i :: 0 <= i < |chosen| ==> chosen[i] < |frames|
  {
    seq(|chosen|, i requires 0 <= i < |chosen| => frames[chosen[i]])
  }

  /** The frames that are out completely: all the chosen ones but the one that is pending. */
  function Whole(accepted: seq<string>, chosen: seq<nat>, pending: string): string
    requires chosen != [] && forall i :: 0 <= i < |chosen| ==> chosen[i] < |accepted|
  {
    Concat(Pick(accepted, if pending == "" then chosen else chosen[..|chosen| - 1]))
  }

  lemma {:induction false} ConcatPush(frames: seq<string>, frame: string)
    ensures Concat(frames + [frame]) == Concat(frames) + frame
  {
    assert (frames + [frame])[..|frames|] == frames;
  }

  // ----- The sending end -----

  function Total(took: seq<nat>): nat {
    if took == [] then 0 else Total(took[..|took| - 1]) + took[|took| - 1]
  }

  datatype WriteResult = Wrote(count: nat) | WouldBlock | WriteError

  /** The bytes out after the first k + 1 writes. */
  function Upto(took: seq<nat>, k: nat): nat
    requires k < |took|
  {
    Total(took[..k + 1])
  }

  /** After how many bytes the current frame ends, and the next one. */
  function FrameEnds(left: nat, next: Option<string>): set<nat> {
    {left} + if next.Some? then {left + |next.value|} else {}
  }

  /** Every write took all that it reported, unless that is more than was left of its frame. */
  ghost predicate TookAll(writes: nat -> WriteResult, took: seq<nat>, ends: set<nat>) {
    && (forall k :: 0 <= k < |took| ==> writes(k).Wrote? && 0 < took[k] <= writes(k).count)
    && (forall k :: 0 <= k < |took| && took[k] < writes(k).count ==> Upto(took, k) in ends)
  }

  lemma {:induction false} TookMore(writes: nat -> WriteResult, took: seq<nat>, ends: set<nat>, rest: nat, taken: nat)
    requires TookAll(writes, took, ends) && Total(took) + rest in ends && rest > 0
    requires writes(|took|).Wrote? && writes(|took|).count > 0
    requires taken == if writes(|took|).count <= rest then writes(|took|).count else rest
    ensures TookAll(writes, took + [taken], ends) && Total(took + [taken]) == Total(took) + taken
  {
    var more := took + [taken];
    assert more[..|took|] == took;
    forall k | 0 <= k < |more| && more[k] < writes(k).count ensures Upto(more, k) in ends {
      if k < |took| { assert more[..k + 1] == took[..k + 1]; } else { assert more[..k + 1] == more; }
    }
  }

  lemma {:induction false} TookNothing(writes: nat -> WriteResult, ends: set<nat>)
    ensures TookAll(writes, [], ends) && Total([]) == 0
  {
  }

  ghost predicate Blocks(writes: nat -> WriteResult) {
    exists n :: writes(n).WouldBlock?
  }

  /** A watching connection.  `accepted` lists every snapshot the watcher was given, `chosen` the
      positions of those whose transmission has begun, `sent` all bytes written so far. */
  class Watcher {
    var pending: string
    var written: nat
    var next: Option<string>
    ghost var accepted: seq<string>
    ghost var chosen: seq<nat>
    ghost var sent: string

    ghost predicate Chosen()
      reads this
    {
      && chosen != [] && Ledger.Increasing(chosen)
      && (forall i :: 0 <= i < |chosen| ==> chosen[i] < |accepted|)
      && (forall i :: 0 <= i < |accepted| ==> IsFrame(accepted[i]))
    }

    /** Whole frames, then a part of the current one; the newest snapshot is the current frame
        or the next one. */
    ghost predicate Valid()
      reads this
    {
      && Chosen()
      && var n := |chosen| - 1;
         && written <= |pending|
         && sent == Whole(accepted, chosen, pending) + pending[..written]
         && (pending == "" ==> next.None?)
         && (pending != "" ==> pending == accepted[chosen[n]])
         && (next.None? ==> chosen[n] == |accepted| - 1)
         && (next.Some? ==> next.value == accepted[|accepted| - 1] && chosen[n] < |accepted| - 1)
    }

    /** The newest snapshot that the watcher was given. */
    ghost function Newest(): string
      reads this
    {
      if accepted == [] then "" else accepted[|accepted| - 1]
    }

    /** Nothing is left to send. */
    predicate Idle()
      reads this
    {
      pending == "" && next.None?
    }

    constructor (snapshot: string)
      requires IsFrame(snapshot)
      ensures Valid() && accepted == [snapshot] && chosen == [0] && sent == ""
    {
      pending, written, next := snapshot, 0, None;
      accepted, chosen, sent := [snapshot], [0], "";
    }

    /** A snapshot that is being transmitted is finished; of the later ones only the latest is
        kept. */
    method EnqueueLatest(snapshot: string)
      requires Valid() && IsFrame(snapshot)
      modifies this
      ensures Valid() && accepted == old(accepted) + [snapshot] && sent == old(sent)
      ensures chosen == if old(pending) == "" then old(chosen) + [|old(accepted)|] else old(chosen)
    {
      if pending == "" {
        Begin(snapshot);
      } else {
        Defer(snapshot);
      }
    }

    /** Nothing is in transmission: the snapshot is next. */
    method Begin(snapshot: string)
      requires Valid() && IsFrame(snapshot) && pending == ""
      modifies this
      ensures Valid() && accepted == old(accepted) + [snapshot] && sent == old(sent)
      ensures chosen == old(chosen) + [|old(accepted)|]
    {
      assert snapshot != "";
      hide Whole, IsFrame, Ledger.Increasing;
      WholeGrows(accepted, snapshot, chosen, "");
      WholeNext(accepted + [snapshot], chosen, snapshot);
      IncreasingPush(chosen, |accepted|);
      chosen, accepted := chosen + [|accepted|], accepted + [snapshot];
      pending, written := snapshot, 0;
    }

    /** The current frame is finished first; an older snapshot that waits is forgotten. */
    method Defer(snapshot: string)
      requires Valid() && IsFrame(snapshot) && pending != ""
      modifies this
      ensures Valid() && accepted == old(accepted) + [snapshot] && sent == old(sent)
      ensures chosen == old(chosen)
    {
      hide Whole, IsFrame, Ledger.Increasing;
      WholeGrows(accepted, snapshot, chosen, pending);
      accepted := accepted + [snapshot];
      next := Some(snapshot);
    }

    /** The next frame moves up. */
    method Advance()
      requires Valid() && pending != "" && written == |pending| && next.Some?
      modifies this
      ensures Valid() && accepted == old(accepted) && sent == old(sent)
      ensures chosen == old(chosen) + [|accepted| - 1]
      ensures pending == old(next.value) && written == 0 && next.None?
    {
      hide Whole;
      assert next.value != "";
      FrameDone();
      WholeNext(accepted, chosen, next.value);
      pending, written, next := next.value, 0, None;
      chosen := chosen + [|accepted| - 1];
    }

    /** The current frame is out: the next one moves up, or there is none. */
    method EndFrame() returns (done: bool)
      requires Valid() && written == |pending|
      modifies this
      ensures Valid() && accepted == old(accepted) && sent == old(sent) && old(chosen) <= chosen
      ensures done <==> old(next).None?
      ensures next.None? && written == 0 && pending == if done then "" else old(next).value
      ensures !done ==> pending != ""
    {
      Bounds();
      hide Whole, IsFrame, Ledger.Increasing;
      done := next.None?;
      if done {
        if pending != "" { FrameDone(); }
        pending, written := "", 0;
      } else {
        Advance();
      }
    }

    lemma {:induction false} Bounds()
      requires Valid()
      ensures written <= |pending| && (pending == "" ==> next.None?) && (next.Some? ==> next.value != "")
    {
    }

    /** `count` bytes of the current frame are out. */
    method Sent(count: nat)
      requires Valid() && count <= |pending| - written
      modifies this`written, this`sent
      ensures Valid() && written == old(written) + count <= |pending|
      ensures old(sent) <= sent && |sent| == |old(sent)| + count
      ensures sent == old(sent) + pending[old(written)..written]
    {
      hide Whole, IsFrame, Ledger.Increasing;
      PartGrows(Whole(accepted, chosen, pending), pending, written, count);
      sent := sent + pending[written..written + count];
      written := written + count;
    }

    /** Writes until everything is out, the socket would block, or it fails.  `took` lists what
        each successful write took. */
    method Flush(writes: nat -> WriteResult) returns (alive: bool, ghost took: seq<nat>)
      requires Valid()
      modifies this
      ensures Valid() && accepted == old(accepted)
      ensures old(sent) <= sent && old(chosen) <= chosen && |sent| == |old(sent)| + Total(took)
      ensures TookAll(writes, took, FrameEnds(old(|pending| - written), old(next)))
      ensures alive ==> Idle() || writes(|took|).WouldBlock?
      ensures !alive ==> writes(|took|).WriteError? || writes(|took|) == Wrote(0)
    {
      hide Valid, TookAll, Total;
      Bounds();
      ghost var left, after: nat := |pending| - written, if next.Some? then |next.value| else 0;
      ghost var ends := FrameEnds(left, next);
      took := [];
      TookNothing(writes, ends);
      var calls := 0;
      while true
        invariant Valid() && accepted == old(accepted) && calls == |took| && written <= |pending|
        invariant old(sent) <= sent && old(chosen) <= chosen && |sent| == |old(sent)| + Total(took)
        invariant Total(took) + (|pending| - written) in ends
        invariant next.Some? ==>
                    |next.value| == after && Total(took) + (|pending| - written) == left && left + after in ends
        invariant TookAll(writes, took, ends)
        decreases if next.Some? then 1 else 0, |pending| - written
      {
        if written == |pending| {
          var done := EndFrame();
          if done {
            return true, took;
          }
        }
        var result := writes(calls);
        match result {
          case Wrote(count) =>
            if count == 0 {
              return false, took;
            }
            // a write never reports more than it was given
            var taken := if count <= |pending| - written then count else |pending| - written;
            TookMore(writes, took, ends, |pending| - written, taken);
            Sent(taken);
            took := took + [taken];
            calls := calls + 1;
          case WouldBlock => return true, took;
          case WriteError => return false, took;
        }
      }
    }

    lemma {:induction false} FrameDone()
      requires Valid() && pending != "" && written == |pending|
      ensures sent == Whole(accepted, chosen, "")
    {
      WholeLast(accepted, chosen);
      assert pending[..written] == pending;
    }
  }

  lemma {:induction false} IncreasingPush(list: seq<nat>, n: nat)
    requires Ledger.Increasing(list) && (list != [] ==> list[|list| - 1] < n)
    ensures Ledger.Increasing(list + [n])
  {
  }

  /** Completing the current frame. */
  lemma {:induction false} WholeLast(accepted: seq<string>, chosen: seq<nat>)
    requires chosen != [] && forall i :: 0 <= i < |chosen| ==> chosen[i] < |accepted|
    requires accepted[chosen[|chosen| - 1]] != ""
    ensures var last := accepted[chosen[|chosen| - 1]];
            Whole(accepted, chosen, "") == Whole(accepted, chosen, last) + last
  {
    var n := |chosen| - 1;
    assert Pick(accepted, chosen) == Pick(accepted, chosen[..n]) + [accepted[chosen[n]]];
    ConcatPush(Pick(accepted, chosen[..n]), accepted[chosen[n]]);
  }

  /** The next frame is pending: what was whole stays whole. */
  lemma {:induction false} WholeNext(accepted: seq<string>, chosen: seq<nat>, frame: string)
    requires chosen != [] && forall i :: 0 <= i < |chosen| ==> chosen[i] < |accepted|
    requires frame != "" && accepted != []
    ensures Whole(accepted, chosen + [|accepted| - 1], frame) == Whole(accepted, chosen, "")
  {
    assert (chosen + [|accepted| - 1])[..|chosen|] == chosen;
  }

  lemma {:induction false} WholeGrows(accepted: seq<string>, frame: string, chosen: seq<nat>, pending: string)
    requires chosen != [] && forall i :: 0 <= i < |chosen| ==> chosen[i] < |accepted|
    ensures Whole(accepted + [frame], chosen, pending) == Whole(accepted, chosen, pending)
  {
    PickGrows(accepted, frame, chosen);
    PickGrows(accepted, frame, chosen[..|chosen| - 1]);
  }

  lemma {:induction false} PartGrows(front: string, text: string, written: nat, count: nat)
    requires written + count <= |text|
    ensures (front + text[..written]) + text[written..written + count] == front + text[..written + count]
  {
  }

  lemma {:induction false} PickGrows(frames: seq<string>, frame: string, chosen: seq<nat>)
    requires forall i :: 0 <= i < |chosen| ==> chosen[i] < |frames|
    ensures Pick(frames + [frame], chosen) == Pick(frames, chosen)
  {
  }

  // ----- The receiving end -----

  /** The non-empty complete lines of a text. */
  function Lines(text: string): seq<string>
    decreases |text|
  {
    match Cut(text, NEWLINE)
    case None => []
    case Some((line, rest)) =>
      CutSound(text, NEWLINE);
      (if line == "" then [] else [line]) + Lines(rest)
  }

  /** What follows the last newline. */
  function Tail(text: string): string
    decreases |text|
  {
    match Cut(text, NEWLINE)
    case None => text
    case Some((_, rest)) =>
      CutSound(text, NEWLINE);
      Tail(rest)
  }

  /** The data handler of the watching client. */
  class LineReader {
    var buffer: string
    var lines: seq<string>
    ghost var received: string

    ghost predicate Valid()
      reads this
    {
      lines == Lines(received) && buffer == Tail(received)
    }

    constructor ()
      ensures Valid() && received == "" && lines == []
    {
      buffer, lines, received := "", [], "";
    }

    method Data(chunk: string)
      requires Valid()
      modifies this
      ensures Valid() && received == old(received) + chunk
    {
      hide Cut, Lines, Tail;
      LinesAppend(received, chunk);
      received := received + chunk;
      buffer := buffer + chunk;
      while NEWLINE in buffer
        invariant received == old(received) + chunk
        invariant lines + Lines(buffer) == Lines(received) && Tail(buffer) == Tail(received)
        decreases |buffer|
      {
        FirstLine(buffer);
        var (line, rest) := Cut(buffer, NEWLINE).value;
        buffer := rest;
        if line != "" {
          lines := lines + [line];
        }
      }
      NoLine(buffer);
    }
  }

  lemma {:induction false} FirstLine(text: string)
    requires NEWLINE in text
    ensures Cut(text, NEWLINE).Some?
    ensures var (line, rest) := Cut(text, NEWLINE).value;
            && |rest| < |text| && Tail(text) == Tail(rest)
            && Lines(text) == if line == "" then Lines(rest) else [line] + Lines(rest)
  {
    hide Cut;
    CutSound(text, NEWLINE);
  }

  lemma {:induction false} NoLine(text: string)
    requires NEWLINE !in text
    ensures Lines(text) == [] && Tail(text) == text
  {
    CutSound(text, NEWLINE);
  }

  /** A line is what stands before a newline; empty ones are skipped, and what follows the last
      newline is none yet. */
  lemma {:induction false} LinesSplit(line: string, rest: string)
    requires NEWLINE !in line
    ensures Lines(line + "\n" + rest) == if line == "" then Lines(rest) else [line] + Lines(rest)
    ensures Tail(line + "\n" + rest) == Tail(rest)
    ensures Lines(line) == [] && Tail(line) == line
  {
    hide Cut;
    assert line + "\n" + rest == line + [NEWLINE] + rest;
    CutOf(line, NEWLINE, rest);
    NoLine(line);
  }

  /** Text that arrives later is read with what was left over. */
  lemma {:induction false} LinesAppend(text: string, more: string)
    ensures Lines(text + more) == Lines(text) + Lines(Tail(text) + more)
    ensures Tail(text + more) == Tail(Tail(text) + more)
    decreases |text|
  {
    hide Cut;
    CutSound(text, NEWLINE);
    if Cut(text, NEWLINE).Some? {
      var (line, rest) := Cut(text, NEWLINE).value;
      LinesAppend(rest, more);
      assert text + more == line + [NEWLINE] + (rest + more);
      CutOf(line, NEWLINE, rest + more);
    }
  }

  // ----- End to end -----

  function LinesOf(frames: seq<string>): seq<string>
    requires forall i :: 0 <= i < |frames| ==> IsFrame(frames[i])
  {
    seq(|frames|, i requires 0 <= i < |frames| => Line(frames[i]))
  }

  lemma {:induction false} FrameLines(frame: string)
    requires IsFrame(frame)
    ensures Lines(frame) == [Line(frame)] && Tail(frame) == ""
  {
    assert frame == Line(frame) + [NEWLINE] + "";
    CutOf(Line(frame), NEWLINE, "");
    assert Lines("") == [] && Tail("") == "";
  }

  lemma {:induction false} FramesLines(frames: seq<string>)
    requires forall i :: 0 <= i < |frames| ==> IsFrame(frames[i])
    ensures Lines(Concat(frames)) == LinesOf(frames) && Tail(Concat(frames)) == ""
  {
    if frames != [] {
      var n := |frames| - 1;
      FramesLines(frames[..n]);
      LinesAppend(Concat(frames[..n]), frames[n]);
      FrameLines(frames[n]);
      assert "" + frames[n] == frames[n];
      assert LinesOf(frames) == LinesOf(frames[..n]) + [Line(frames[n])];
    }
  }

  /** Any prefix of whole frames reads as the lines of a prefix of the frames. */
  lemma {:induction false} PrefixLines(frames: seq<string>, text: string) returns (m: nat)
    requires forall i :: 0 <= i < |frames| ==> IsFrame(frames[i])
    requires text <= Concat(frames)
    ensures m <= |frames| && Lines(text) == LinesOf(frames[..m])
    ensures text == Concat(frames) ==> m == |frames|
  {
    if text == Concat(frames) {
      m := |frames|;
      FramesLines(frames);
      assert frames[..m] == frames;
    } else {
      var n := |frames| - 1;
      var front := Concat(frames[..n]);
      if |text| <= |front| {
        assert text == front[..|text|];
        m := PrefixLines(frames[..n], text);
        assert frames[..n][..m] == frames[..m];
      } else {
        m := n;
        var part := text[|front|..];
        assert text == front + part;
        assert part == frames[n][..|part|] && |part| < |frames[n]|;
        FramesLines(frames[..n]);
        LinesAppend(front, part);
        assert forall i :: 0 <= i < |part| ==> part[i] == frames[n][..|frames[n]| - 1][i];
        NoLine(part);
        assert "" + part == part;
      }
    }
  }

  /** Whatever the write results were, and however the bytes were cut into chunks on the way:
      the reader has seen exactly the first m snapshots that the watcher chose, in the order in
      which it was given them; and once everything chosen is out and has arrived, they end with
      the newest snapshot. */
  lemma {:induction false} EndToEnd(watcher: Watcher, reader: LineReader) returns (m: nat)
    requires watcher.Valid() && reader.Valid() && reader.received <= watcher.sent
    ensures m <= |watcher.chosen| && Ledger.Increasing(watcher.chosen)
    ensures reader.lines == LinesOf(Pick(watcher.accepted, watcher.chosen[..m]))
    ensures watcher.pending == "" && reader.received == watcher.sent ==>
              && m == |watcher.chosen|
              && watcher.chosen[m - 1] == |watcher.accepted| - 1
              && reader.lines[m - 1] == Line(watcher.accepted[|watcher.accepted| - 1])
  {
    var frames := Pick(watcher.accepted, watcher.chosen);
    SentIsPrefix(watcher);
    m := PrefixLines(frames, reader.received);
    assert frames[..m] == Pick(watcher.accepted, watcher.chosen[..m]);
  }

  /** The bytes sent are a prefix of the chosen snapshots, laid end to end. */
  lemma {:induction false} SentIsPrefix(watcher: Watcher)
    requires watcher.Valid()
    ensures watcher.sent <= Concat(Pick(watcher.accepted, watcher.chosen))
    ensures watcher.pending == "" ==> watcher.sent == Concat(Pick(watcher.accepted, watcher.chosen))
  {
    if watcher.pending != "" {
      WholeLast(watcher.accepted, watcher.chosen);
    }
  }
}
