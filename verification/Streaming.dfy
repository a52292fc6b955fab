/** Releasing a stream to the client one frame behind detection:
    internal/contexts/gateway/adapters/http/openai/streaming_handler.go:33-99 with the planner in
    internal/contexts/gateway/application/streaming_output.go and lifecycle.go:244-273. */
module Streaming {
  import opened Options
  import opened Strings
  import opened Policy
  import opened Sse
  import opened StreamBuffer

  const WINDOW_LIMIT: int := 4096

  datatype Termination = Running | StreamBlocked | UnsupportedRedaction | OutputTooLarge | ParseError
                       | ReadError | ClientWriteError

  // What the handler asks of the rest of the gateway: the delta in a frame, if it parses, and the
  // policy's action for a window, which may differ from call to call: its number is that of the frame.
  datatype Checks = Checks(delta: Frame -> Option<string>, decide: (nat, string) -> Action)

  // ----- the planner -----

  datatype DeltaPlan = Continue | Terminate(reason: Termination)

  function PlanPolicy(action: Action, collected: bool): DeltaPlan {
    match action
    case Block => Terminate(StreamBlocked)
    case Redact => Terminate(UnsupportedRedaction)
    case _ => if collected then Continue else Terminate(OutputTooLarge)
  }

  datatype FramePlan = Hold | WritePending | Complete

  function PlanFrame(hasPending: bool, done: bool): FramePlan {
    if done then Complete else if hasPending then WritePending else Hold
  }

  // ----- what the frames so far add up to -----

  function DeltaText(f: Frame, checks: Checks): string {
    var d := checks.delta(f);
    if d.Some? then d.value else ""
  }

  function TextOf(frames: seq<Frame>, checks: Checks): string {
    if frames == [] then "" else TextOf(frames[..|frames| - 1], checks) + DeltaText(frames[|frames| - 1], checks)
  }

  predicate Fits(text: string, limit: int) { limit > 0 && ByteLen(text) <= limit }

  // What the handler does on a frame that comes after `before`.
  function Verdict(before: seq<Frame>, f: Frame, limit: int, checks: Checks): DeltaPlan {
    var d := checks.delta(f);
    if d.None? then Terminate(ParseError)
    else if d.value == "" then Continue
    else
      var text := TextOf(before, checks) + d.value;
      PlanPolicy(checks.decide(|before|, Suffix(text, WINDOW_LIMIT)), Fits(text, limit))
  }

  ghost predicate AllPass(frames: seq<Frame>, limit: int, checks: Checks) {
    frames == [] ||
    (AllPass(frames[..|frames| - 1], limit, checks)
     && Verdict(frames[..|frames| - 1], frames[|frames| - 1], limit, checks).Continue?)
  }

  lemma {:induction false} PassSnoc(frames: seq<Frame>, f: Frame, limit: int, checks: Checks)
    ensures TextOf(frames + [f], checks) == TextOf(frames, checks) + DeltaText(f, checks)
    ensures AllPass(frames + [f], limit, checks)
            <==> AllPass(frames, limit, checks) && Verdict(frames, f, limit, checks).Continue?
  {
    assert (frames + [f])[..|frames|] == frames;
  }

  // All but the last: the frames the handler has released while it holds one back.
  function Front(frames: seq<Frame>): seq<Frame> { if frames == [] then [] else frames[..|frames| - 1] }

  // ----- the same, said of deltas and answers -----

  // The deltas of the frames; a frame whose delta does not parse has none.
  function Deltas(frames: seq<Frame>, checks: Checks): (r: seq<string>)
    ensures |r| == |frames|
  {
    seq(|frames|, i requires 0 <= i < |frames| =>
      match checks.delta(frames[i]) case Some(d) => d case None => "")
  }

  lemma {:induction false} TextIsConcat(frames: seq<Frame>, checks: Checks)
    ensures TextOf(frames, checks) == Concat(Deltas(frames, checks))
  {
    if frames != [] {
      var front, n := frames[..|frames| - 1], |frames| - 1;
      TextIsConcat(front, checks);
      assert Deltas(frames, checks) == Deltas(front, checks) + [Deltas(frames, checks)[n]];
      ConcatAppend(Deltas(front, checks), Deltas(frames, checks)[n]);
    }
  }

  // The text up to frame i.
  function Spoken(frames: seq<Frame>, i: nat, checks: Checks): string
    requires i < |frames|
  {
    Concat(Deltas(frames[..i + 1], checks))
  }

  predicate Speaks(f: Frame, checks: Checks) { checks.delta(f).Some? && checks.delta(f).value != "" }

  // The last 4096 characters of the text, or all of it.
  predicate IsWindow(w: string, text: string) {
    |w| == (if |text| < 4096 then |text| else 4096) && text[|text| - |w|..] == w
  }

  // The policy gave this answer for the window up to frame i.
  ghost predicate Answered(frames: seq<Frame>, i: nat, a: Action, checks: Checks)
    requires i < |frames|
  {
    Speaks(frames[i], checks) && exists w :: IsWindow(w, Spoken(frames, i, checks)) && checks.decide(i, w) == a
  }

  predicate WithinLimit(frames: seq<Frame>, i: nat, limit: int, checks: Checks)
    requires i < |frames|
  {
    0 < limit && ByteLen(Spoken(frames, i, checks)) <= limit
  }

  // Frame i parses, and if it says something, the policy neither blocks nor redacts and the text fits.
  ghost predicate MayPass(frames: seq<Frame>, i: nat, limit: int, checks: Checks)
    requires i < |frames|
  {
    && checks.delta(frames[i]).Some?
    && (Speaks(frames[i], checks) ==>
          && !Answered(frames, i, Block, checks) && !Answered(frames, i, Redact, checks)
          && WithinLimit(frames, i, limit, checks))
  }

  lemma {:induction false} WindowUnique(w: string, text: string)
    ensures IsWindow(w, text) <==> w == Suffix(text, WINDOW_LIMIT)
  {
  }

  lemma {:induction false} VerdictMeans(frames: seq<Frame>, i: nat, limit: int, checks: Checks)
    requires i < |frames|
    ensures var v := Verdict(frames[..i], frames[i], limit, checks);
            && (v.Continue? <==> MayPass(frames, i, limit, checks))
            && (v == Terminate(StreamBlocked) <==> Answered(frames, i, Block, checks))
            && (v == Terminate(UnsupportedRedaction) <==> Answered(frames, i, Redact, checks))
            && (v == Terminate(ParseError) <==> checks.delta(frames[i]).None?)
            && (v == Terminate(OutputTooLarge) <==>
                  && Speaks(frames[i], checks) && !WithinLimit(frames, i, limit, checks)
                  && !Answered(frames, i, Block, checks) && !Answered(frames, i, Redact, checks))
  {
    assert frames[..i + 1] == frames[..i] + [frames[i]];
    PassSnoc(frames[..i], frames[i], limit, checks);
    TextIsConcat(frames[..i + 1], checks);
    var text := Spoken(frames, i, checks);
    WindowUnique(Suffix(text, WINDOW_LIMIT), text);
    forall w | IsWindow(w, text) ensures w == Suffix(text, WINDOW_LIMIT) {
      WindowUnique(w, text);
    }
  }

  // ----- the client -----

  class Client {
    const accepts: nat -> bool
    var calls: nat
    var bytes: nat
    ghost var written: seq<Frame>
    ghost var refused: bool

    constructor (accepts: nat -> bool)
      ensures written == [] && bytes == 0 && !refused
    {
      this.accepts := accepts;
      calls, bytes, written, refused := 0, 0, [], false;
    }

    method WriteFrame(f: Frame) returns (ok: bool)
      modifies this
      ensures written == if ok then old(written) + [f] else old(written)
      ensures bytes == if ok then old(bytes) + |f.raw| else old(bytes)
      ensures refused <==> old(refused) || !ok
    {
      ok := accepts(calls);
      calls := calls + 1;
      if ok {
        bytes, written := bytes + |f.raw|, written + [f];
      } else {
        refused := true;
      }
    }
  }

  // Where the parser stands: what it has given is a front of the frames of the whole stream.
  ghost predicate Parsed(parser: SSEParser, run: Run, seen: seq<Frame>)
    reads parser
  {
    if parser.done then run.frames == seen && run.last.Eof?
    else var rest := Frames(parser.rest, parser.ending);
         run.frames == seen + rest.frames && run.last == rest.last
  }

  lemma {:induction false} StartParsed(parser: SSEParser, run: Run)
    requires !parser.done && run == Frames(parser.rest, parser.ending)
    ensures Parsed(parser, run, [])
  {
    assert [] + run.frames == run.frames;
  }

  lemma {:induction false} ParsedNext(s: string, ending: Ending, run: Run, seen: seq<Frame>)
    requires run.frames == seen + Frames(s, ending).frames && run.last == Frames(s, ending).last
    ensures var (r, rest, done) := NextOf(s, ending);
            if !r.Next? then run.frames == seen && run.last == r
            else if done then run.frames == seen + [r.frame] && run.last.Eof?
            else run.frames == (seen + [r.frame]) + Frames(rest, ending).frames && run.last == Frames(rest, ending).last
  {
    var (r, rest, done) := NextOf(s, ending);
    if !r.Next? {
      assert seen + [] == seen;
    } else if !done {
      Associative(seen, [r.frame], Frames(rest, ending).frames);
    }
  }

  // ----- one frame -----

  // The delta, policy and collection checks on one frame.
  method CheckFrame(f: Frame, count: nat, buffer: Buffer, checks: Checks, ghost before: seq<Frame>)
    returns (plan: DeltaPlan)
    requires count == |before| && buffer.Valid() && buffer.window.limit == WINDOW_LIMIT
    requires buffer.window.seen == TextOf(before, checks) && buffer.collector.buf == TextOf(before, checks)
    modifies buffer.window, buffer.collector
    ensures buffer.Valid()
    ensures plan == Verdict(before, f, buffer.collector.limit, checks)
    ensures plan.Continue? ==> buffer.window.seen == TextOf(before, checks) + DeltaText(f, checks)
                               && buffer.collector.buf == TextOf(before, checks) + DeltaText(f, checks)
    ensures !plan.Continue? ==> TextOf(before, checks) <= buffer.collector.buf
  {
    var delta := checks.delta(f);
    if delta.None? {
      return Terminate(ParseError);
    }
    if delta.value == "" {
      assert TextOf(before, checks) + "" == TextOf(before, checks);
      return Continue;
    }
    var window, collected := buffer.ObserveDelta(delta.value);
    plan := PlanPolicy(checks.decide(count, window), collected);
  }

  // Every way the loop can end, and what the client has then been sent.
  ghost predicate Ended(reason: Termination, run: Run, seen: seq<Frame>, written: seq<Frame>, limit: int,
                        checks: Checks)
  {
    match reason
    case Running =>
      // the whole stream was read and released
      run.last.Eof? && seen == run.frames && AllPass(seen, limit, checks) && written == run.frames
    case ReadError =>
      // the upstream broke off; the frame held back stays back
      !run.last.Eof? && seen == run.frames && AllPass(seen, limit, checks) && written == Front(run.frames)
    case ClientWriteError =>
      // the client refused a frame that detection had passed
      seen <= run.frames && AllPass(seen, limit, checks) && written <= seen && |written| < |seen|
    case _ =>
      // the last frame seen was stopped, with its predecessor held back
      && seen != [] && seen <= run.frames && AllPass(Front(seen), limit, checks)
      && Verdict(Front(seen), seen[|seen| - 1], limit, checks) == Terminate(reason)
      && written == Front(Front(seen))
  }

  // The buffer and the client agree with the frames that have passed.
  ghost predicate InStep(client: Client, buffer: Buffer, pending: Option<Frame>, seen: seq<Frame>, limit: int,
                         checks: Checks)
    reads client, buffer, buffer.window, buffer.collector
  {
    && AllPass(seen, limit, checks)
    && client.written == Front(seen) && !client.refused
    && pending == (if seen == [] then None else Some(seen[|seen| - 1]))
    && buffer.Valid() && buffer.window.limit == WINDOW_LIMIT && buffer.collector.limit == limit
    && buffer.window.seen == TextOf(seen, checks) && buffer.collector.buf == TextOf(seen, checks)
  }

  // What one frame leads to.
  datatype Turn = GoOn | Stop(reason: Termination)

  // One turn of the loop, after the parser gave a frame.
  method HandleFrame(f: Frame, count: nat, pending: Option<Frame>, client: Client, buffer: Buffer, checks: Checks,
                     ghost seen: seq<Frame>) returns (turn: Turn)
    requires count == |seen| && InStep(client, buffer, pending, seen, buffer.collector.limit, checks)
    modifies client, buffer.window, buffer.collector
    ensures buffer.Valid()
    ensures turn.GoOn? ==> !f.done && InStep(client, buffer, Some(f), seen + [f], buffer.collector.limit, checks)
    ensures client.refused <==> turn == Stop(ClientWriteError)
    ensures turn.Stop? ==> Stopped(turn.reason, seen, f, client.written, buffer.collector.limit, checks)
    ensures TextOf(seen, checks) <= buffer.collector.buf
    ensures turn == Stop(Running) ==> buffer.collector.buf == TextOf(seen + [f], checks)
  {
    PassSnoc(seen, f, buffer.collector.limit, checks);
    var plan := CheckFrame(f, count, buffer, checks, seen);
    if plan.Terminate? {
      return Stop(plan.reason);
    }
    var framePlan := PlanFrame(pending.Some?, f.done);
    if pending.Some? {
      WrittenSnoc(seen);
      var ok := client.WriteFrame(pending.value);
      if !ok {
        return Stop(ClientWriteError);
      }
    }
    if framePlan.Complete? {
      var ok := client.WriteFrame(f);
      return Stop(if ok then Running else ClientWriteError);
    }
    return GoOn;
  }

  // ----- the loop -----

  method HandleStreaming(parser: SSEParser, client: Client, buffer: Buffer, checks: Checks)
    returns (reason: Termination, ghost seen: seq<Frame>)
    requires !parser.done
    requires InStep(client, buffer, None, [], buffer.collector.limit, checks)
    modifies parser, client, buffer.window, buffer.collector
    ensures Closed(reason, Frames(old(parser.rest), parser.ending), seen, client, buffer, buffer.collector.limit,
                   checks)
    ensures Justified(reason, seen, client.written, buffer.collector.limit, checks)
    ensures client.refused <==> reason.ClientWriteError?
  {
    ghost var run, limit := Frames(parser.rest, parser.ending), buffer.collector.limit;
    seen := [];
    var pending: Option<Frame>, count := None, 0;
    StartParsed(parser, run);
    while true
      invariant Parsed(parser, run, seen) && count == |seen| && buffer.collector.limit == limit
      invariant InStep(client, buffer, pending, seen, limit, checks)
      decreases if parser.done then 0 else |parser.rest| + 1
    {
      var next := Pull(parser, run, seen);
      var stop := Respond(next, count, client, buffer, checks, pending, run, seen);
      if next.Next? {
        seen := seen + [next.frame];
      }
      if stop.Some? {
        return stop.value, seen;
      }
      pending, count := Some(next.frame), count + 1;
    }
  }

  // The parser's answer continues the frames seen so far.
  ghost predicate Continues(next: NextResult, run: Run, seen: seq<Frame>) {
    if next.Next? then
      seen + [next.frame] <= run.frames && (next.frame.done ==> run.frames == seen + [next.frame] && run.last.Eof?)
    else run.frames == seen && (run.last.Eof? <==> next.Eof?)
  }

  // One turn of the loop: the reason to stop, if there is one.
  method Respond(next: NextResult, count: nat, client: Client, buffer: Buffer, checks: Checks, pending: Option<Frame>,
                 ghost run: Run, ghost seen: seq<Frame>) returns (stop: Option<Termination>)
    requires count == |seen| && Continues(next, run, seen)
    requires InStep(client, buffer, pending, seen, buffer.collector.limit, checks)
    modifies client, buffer.window, buffer.collector
    ensures stop.None? ==>
              next.Next? && InStep(client, buffer, Some(next.frame),
                                     seen + [next.frame], buffer.collector.limit, checks)
    ensures client.refused <==> stop == Some(ClientWriteError)
    ensures stop.Some? ==>
              var after := if next.Next? then seen + [next.frame] else seen;
              && Closed(stop.value, run, after, client, buffer, buffer.collector.limit, checks)
              && Justified(stop.value, after, client.written, buffer.collector.limit, checks)
  {
    if next.Next? {
      stop := StopAfter(next.frame, count, client, buffer, checks, pending, run, seen);
    } else {
      PrefixText(seen, checks);
      var reason := ReadError;
      if next.Eof? {
        reason := Finish(pending, client, run, seen, buffer.collector.limit, checks);
      }
      stop := Some(reason);
    }
    if stop.Some? {
      var after := if next.Next? then seen + [next.frame] else seen;
      EndIsJustified(stop.value, run, after, client.written, buffer.collector.limit, checks);
    }
  }

  ghost predicate Closed(reason: Termination, run: Run, seen: seq<Frame>, client: Client, buffer: Buffer, limit: int,
                         checks: Checks)
    reads client, buffer, buffer.window, buffer.collector
  {
    && Ended(reason, run, seen, client.written, limit, checks)
    && buffer.Valid() && TextOf(Front(seen), checks) <= buffer.collector.buf
    && (reason.Running? || reason.ReadError? ==> buffer.collector.buf == TextOf(seen, checks))
  }

  method StopAfter(f: Frame, count: nat, client: Client, buffer: Buffer, checks: Checks, pending: Option<Frame>,
                   ghost run: Run, ghost seen: seq<Frame>) returns (stop: Option<Termination>)
    requires count == |seen| && InStep(client, buffer, pending, seen, buffer.collector.limit, checks)
    requires Continues(NextResult.Next(f), run, seen)
    modifies client, buffer.window, buffer.collector
    ensures stop.None? ==> InStep(client, buffer, Some(f), seen + [f], buffer.collector.limit, checks)
    ensures client.refused <==> stop == Some(ClientWriteError)
    ensures stop.Some? ==> Closed(stop.value, run, seen + [f], client, buffer, buffer.collector.limit, checks)
  {
    var turn := HandleFrame(f, count, pending, client, buffer, checks, seen);
    if turn.GoOn? {
      return None;
    }
    TurnEnds(turn.reason, run, seen, f, client.written, buffer.collector.limit, checks);
    return Some(turn.reason);
  }

  // After the upstream's end the frame held back is released.
  method Finish(pending: Option<Frame>, client: Client, ghost run: Run, ghost seen: seq<Frame>, ghost limit: int,
                checks: Checks)
    returns (reason: Termination)
    requires run.last.Eof? && run.frames == seen && AllPass(seen, limit, checks)
    requires client.written == Front(seen) && !client.refused
    requires pending == (if seen == [] then None else Some(seen[|seen| - 1]))
    modifies client
    ensures Ended(reason, run, seen, client.written, limit, checks) && (reason.Running? || reason.ClientWriteError?)
    ensures client.refused <==> reason.ClientWriteError?
  {
    reason := Running;
    if pending.Some? {
      WrittenSnoc(seen);
      var ok := client.WriteFrame(pending.value);
      reason := if ok then Running else ClientWriteError;
    }
  }

  method Pull(parser: SSEParser, ghost run: Run, ghost seen: seq<Frame>) returns (next: NextResult)
    requires Parsed(parser, run, seen)
    modifies parser
    ensures Continues(next, run, seen)
    ensures next.Next? ==> Parsed(parser, run, seen + [next.frame]) && !old(parser.done)
                           && (parser.done || |parser.rest| < |old(parser.rest)|)
  {
    if !parser.done {
      ParsedNext(parser.rest, parser.ending, run, seen);
      NextConsumes(parser.rest, parser.ending);
    }
    next := parser.Next();
  }

  // What HandleFrame says of a stop, for a frame f after the frames in seen.
  ghost predicate Stopped(reason: Termination, seen: seq<Frame>, f: Frame, written: seq<Frame>, limit: int,
                          checks: Checks)
  {
    match reason
    case Running => f.done && AllPass(seen + [f], limit, checks) && written == seen + [f]
    case ReadError => false
    case ClientWriteError => AllPass(seen + [f], limit, checks) && written <= seen
    case _ => Verdict(seen, f, limit, checks) == Terminate(reason) && written == Front(seen)
  }

  lemma {:induction false} Last(seen: seq<Frame>, f: Frame)
    ensures Front(seen + [f]) == seen && (seen + [f])[|seen|] == f && seen + [f] != []
  {
  }

  lemma {:induction false} PrefixSnoc(written: seq<Frame>, seen: seq<Frame>, f: Frame)
    requires written <= seen
    ensures written <= seen + [f]
  {
  }

  lemma {:induction false} TurnEnds(reason: Termination, run: Run, seen: seq<Frame>, f: Frame, written: seq<Frame>,
                                    limit: int, checks: Checks)
    requires seen + [f] <= run.frames && AllPass(seen, limit, checks)
             && Stopped(reason, seen, f, written, limit, checks)
    requires f.done ==> run.frames == seen + [f] && run.last.Eof?
    ensures Ended(reason, run, seen + [f], written, limit, checks) && Front(seen + [f]) == seen
  {
    var now := seen + [f];
    Last(seen, f);
    if reason.ClientWriteError? {
      PrefixSnoc(written, seen, f);
      assert |written| <= |seen| < |now|;
    } else if !reason.Running? {
      assert Verdict(Front(now), now[|now| - 1], limit, checks) == Terminate(reason);
    }
  }

  lemma {:induction false} WrittenSnoc(frames: seq<Frame>)
    requires frames != []
    ensures Front(frames) + [frames[|frames| - 1]] == frames
  {
  }

  lemma {:induction false} PrefixText(frames: seq<Frame>, checks: Checks)
    ensures TextOf(Front(frames), checks) <= TextOf(frames, checks)
  {
  }

  // ----- what the client can have seen -----

  lemma {:induction false} RawsConcat(a: seq<Frame>, b: seq<Frame>)
    ensures Raws(a + b) == Raws(a) + Raws(b)
  {
    if a == [] {
      assert a + b == b;
    } else {
      assert (a + b)[1..] == a[1..] + b;
      RawsConcat(a[1..], b);
    }
  }

  lemma {:induction false} WrittenAreFrames(reason: Termination, run: Run, seen: seq<Frame>, written: seq<Frame>,
                                            limit: int, checks: Checks)
    requires Ended(reason, run, seen, written, limit, checks)
    ensures written <= run.frames && Raws(written) <= Raws(run.frames)
  {
    assert written <= seen <= run.frames;
    var rest := run.frames[|written|..];
    assert run.frames == written + rest;
    RawsConcat(written, rest);
  }

  // However the stream ends, the frame bytes sent are a prefix of the upstream bytes; after a clean
  // end they are all of them, and after a [DONE] frame all of them up to its end.
  lemma {:induction false} ReleasedIsPrefix(reason: Termination, input: string, ending: Ending, seen: seq<Frame>,
                                            written: seq<Frame>, limit: int, checks: Checks)
    requires Ended(reason, Frames(input, ending), seen, written, limit, checks)
    ensures Raws(written) <= input
    ensures reason.Running? ==> var run := Frames(input, ending);
                                input == Raws(written) + run.unread && (run.unread == "" || LastDone(written))
    ensures (reason.Running? ==> FramesFit(input, ending)) && (reason.ReadError? ==> !FramesFit(input, ending))
  {
    EofExactly(input, ending);
    FramingLosesNothing(input, ending);
    WrittenAreFrames(reason, Frames(input, ending), seen, written, limit, checks);
  }

  // A stop at frame k withholds frames k-1 and k.
  lemma {:induction false} StopWithholdsTwo(reason: Termination, run: Run, seen: seq<Frame>, written: seq<Frame>,
                                            limit: int, checks: Checks)
    requires Ended(reason, run, seen, written, limit, checks)
    requires reason.StreamBlocked? || reason.UnsupportedRedaction? || reason.OutputTooLarge? || reason.ParseError?
    ensures var k := |seen| - 1;
            written == run.frames[..if k >= 1 then k - 1 else 0]
  {
  }

  // Nothing the client received shows a window that the policy stops, or text over the limit.
  lemma {:induction false} ReleasedWasPassed(reason: Termination, run: Run, seen: seq<Frame>, written: seq<Frame>,
                                             limit: int, checks: Checks, i: nat)
    requires Ended(reason, run, seen, written, limit, checks) && i < |written|
    ensures written[..i] == run.frames[..i] && Verdict(run.frames[..i], written[i], limit, checks).Continue?
  {
    var front := if reason.Running? || reason.ReadError? || reason.ClientWriteError? then seen else Front(seen);
    assert written <= front <= run.frames;
    PassedAt(front, limit, checks, i);
    assert front[..i] == run.frames[..i];
  }

  lemma {:induction false} PassedAt(frames: seq<Frame>, limit: int, checks: Checks, i: nat)
    requires AllPass(frames, limit, checks) && i < |frames|
    ensures Verdict(frames[..i], frames[i], limit, checks).Continue?
  {
    if i < |frames| - 1 {
      PassedAt(frames[..|frames| - 1], limit, checks, i);
      assert frames[..|frames| - 1][..i] == frames[..i];
    }
  }

  // Every frame before number n may pass.
  ghost predicate AllMayPass(frames: seq<Frame>, n: nat, limit: int, checks: Checks)
    requires n <= |frames|
  {
    forall i {:trigger MayPass(frames, i, limit, checks)} :: 0 <= i < n ==> MayPass(frames, i, limit, checks)
  }

  // Every released frame parsed, the policy answered neither block nor redact for its window, and the
  // text was within the limit. The loop stops at the first frame for which this fails, and says why.
  ghost predicate Justified(reason: Termination, seen: seq<Frame>, written: seq<Frame>, limit: int, checks: Checks) {
    var last := |seen| - 1;
    && written <= seen && AllMayPass(seen, |written|, limit, checks)
    && (reason.Running? || reason.ReadError? || reason.ClientWriteError? <==>
          seen == [] || AllMayPass(seen, |seen|, limit, checks))
    && (seen != [] ==> AllMayPass(seen, last, limit, checks))
    && (reason.StreamBlocked? <==> seen != [] && Answered(seen, last, Block, checks))
    && (reason.UnsupportedRedaction? <==> seen != [] && Answered(seen, last, Redact, checks))
    && (reason.ParseError? <==> seen != [] && checks.delta(seen[last]).None?)
    && (reason.OutputTooLarge? <==>
          && seen != [] && Speaks(seen[last], checks) && !WithinLimit(seen, last, limit, checks)
          && !Answered(seen, last, Block, checks) && !Answered(seen, last, Redact, checks))
  }

  lemma {:induction false} PassedMeans(frames: seq<Frame>, n: nat, limit: int, checks: Checks)
    requires n <= |frames| && AllPass(frames[..n], limit, checks)
    ensures AllMayPass(frames, n, limit, checks)
  {
    forall i | 0 <= i < n ensures MayPass(frames, i, limit, checks) {
      PassedAt(frames[..n], limit, checks, i);
      assert frames[..n][..i] == frames[..i];
      VerdictMeans(frames, i, limit, checks);
    }
  }

  lemma {:induction false} EndIsJustified(reason: Termination, run: Run, seen: seq<Frame>, written: seq<Frame>,
                                          limit: int, checks: Checks)
    requires Ended(reason, run, seen, written, limit, checks)
    ensures Justified(reason, seen, written, limit, checks)
  {
    var whole := reason.Running? || reason.ReadError? || reason.ClientWriteError?;
    var passed := if whole then |seen| else |seen| - 1;
    assert seen[..|seen|] == seen;
    PassedMeans(seen, passed, limit, checks);
    if seen != [] {
      VerdictMeans(seen, |seen| - 1, limit, checks);
    }
  }
}
