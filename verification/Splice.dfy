/**
  The splice: two goroutines copy in opposite directions, each sends its result
  on one buffered channel, the session receives a single result and its deferred
  closes run. The same shape ends `proxy.serve`, `serveManaged`,
  `tcpProxy.handle` and `httpProxy.ServeHTTP`; only the capacity differs.

  A run is any sequence of enabled steps, so a statement about `Run` covers every
  interleaving, every way of cutting the bytes up and every failure.
 */
module Splice {
  import opened Octets
  import opened Wrappers

  /** Copying, about to send its result (true for a clean end of stream), or finished. */
  datatype Copier = Running | Sending(clean: bool) | Done(clean: bool)

  /** One direction: the bytes its source still has, and those its sink has taken. */
  datatype Lane = Lane(unread: Bytes, written: Bytes, copier: Copier)

  /** A result on the channel, with the direction it came from. */
  datatype Note = Note(forward: bool, clean: bool)

  datatype Receiver = Waiting | Returned(first: Note)

  datatype State = State(fwd: Lane, rev: Lane, chan: seq<Note>, recv: Receiver, srcOpen: bool, dstOpen: bool)

  datatype Step =
    | Copy(forward: bool, read: nat, wrote: nat)  // one Read and the Write that follows it
    | Eof(forward: bool)
    | Fail(forward: bool)                         // a read error; always possible, certain after a close
    | Send(forward: bool)
    | Receive
    | Close(src: bool)                            // one of the deferred closes

  function Init(input: Bytes, output: Bytes): State {
    State(Lane(input, [], Running), Lane(output, [], Running), [], Waiting, true, true)
  }

  function LaneOf(s: State, forward: bool): Lane {
    if forward then s.fwd else s.rev
  }

  function WithLane(s: State, forward: bool, lane: Lane): State {
    if forward then s.(fwd := lane) else s.(rev := lane)
  }

  /** The connection a direction reads from, and the one it writes to. */
  predicate ReadOpen(s: State, forward: bool) {
    if forward then s.srcOpen else s.dstOpen
  }

  predicate WriteOpen(s: State, forward: bool) {
    ReadOpen(s, !forward)
  }

  predicate Enabled(cap: nat, s: State, step: Step) {
    match step
    case Copy(f, read, wrote) =>
      && LaneOf(s, f).copier == Running && ReadOpen(s, f)
      && 1 <= read <= |LaneOf(s, f).unread| && wrote <= read
      && (!WriteOpen(s, f) ==> wrote == 0)
    case Eof(f) => LaneOf(s, f).copier == Running && ReadOpen(s, f) && LaneOf(s, f).unread == []
    case Fail(f) => LaneOf(s, f).copier == Running
    case Send(f) => LaneOf(s, f).copier.Sending? && |s.chan| < cap
    case Receive => s.recv == Waiting && s.chan != []
    case Close(src) => s.recv.Returned? && if src then s.srcOpen else s.dstOpen
  }

  function Apply(cap: nat, s: State, step: Step): State
    requires Enabled(cap, s, step)
  {
    match step
    case Copy(f, read, wrote) =>
      var l := LaneOf(s, f);
      WithLane(s, f, Lane(l.unread[read..], l.written + l.unread[..wrote],
                          if wrote < read then Sending(false) else Running))
    case Eof(f) => WithLane(s, f, LaneOf(s, f).(copier := Sending(true)))
    case Fail(f) => WithLane(s, f, LaneOf(s, f).(copier := Sending(false)))
    case Send(f) =>
      var clean := LaneOf(s, f).copier.clean;
      WithLane(s, f, LaneOf(s, f).(copier := Done(clean))).(chan := s.chan + [Note(f, clean)])
    case Receive => s.(recv := Returned(s.chan[0]), chan := s.chan[1..])
    case Close(src) => if src then s.(srcOpen := false) else s.(dstOpen := false)
  }

  /** The state after a sequence of steps, or None if some step was not enabled. */
  function Run(cap: nat, s: State, steps: seq<Step>): Option<State> {
    if steps == [] then Some(s)
    else
      match Run(cap, s, steps[..|steps| - 1])
      case None => None
      case Some(t) =>
        var step := steps[|steps| - 1];
        if Enabled(cap, t, step) then Some(Apply(cap, t, step)) else None
  }

  // -------------------------------------------------------------- invariant

  /** Nothing is invented, reordered or duplicated; only a failed copier may have lost bytes it had read. */
  predicate LaneInv(input: Bytes, l: Lane) {
    && |l.written| + |l.unread| <= |input|
    && l.written == input[..|l.written|]
    && l.unread == input[|input| - |l.unread|..]
    && (l.copier == Running ==> |l.written| + |l.unread| == |input|)
    && ((l.copier == Sending(true) || l.copier == Done(true)) ==> l.written == input)
  }

  /** A result with its direction has been sent exactly by the finished copiers. */
  predicate NoteInv(s: State, n: Note) {
    LaneOf(s, n.forward).copier == Done(n.clean)
  }

  function DoneCount(s: State): nat {
    (if s.fwd.copier.Done? then 1 else 0) + (if s.rev.copier.Done? then 1 else 0)
  }

  predicate Inv(input: Bytes, output: Bytes, s: State) {
    LaneInv(input, s.fwd) && LaneInv(output, s.rev) && ChanInv(s)
  }

  predicate ChanInv(s: State) {
    && (forall n :: n in s.chan ==> NoteInv(s, n))
    && (s.recv.Returned? ==> NoteInv(s, s.recv.first))
    && |s.chan| + (if s.recv.Returned? then 1 else 0) == DoneCount(s)
    && (!s.srcOpen || !s.dstOpen ==> s.recv.Returned?)
  }

  lemma {:induction false} CopyKeepsLane(input: Bytes, l: Lane, read: nat, wrote: nat)
    requires LaneInv(input, l) && l.copier == Running && wrote <= read <= |l.unread|
    ensures LaneInv(input, Lane(l.unread[read..], l.written + l.unread[..wrote],
                                if wrote < read then Sending(false) else Running))
  {
    var k := |l.written|;
    assert l.unread == input[k..];
    assert l.written + l.unread[..wrote] == input[..k + wrote];
    assert l.unread[read..] == input[k + read..];
  }

  lemma {:induction false} StepKeepsLanes(cap: nat, input: Bytes, output: Bytes, s: State, step: Step)
    requires LaneInv(input, s.fwd) && LaneInv(output, s.rev) && Enabled(cap, s, step)
    ensures LaneInv(input, Apply(cap, s, step).fwd) && LaneInv(output, Apply(cap, s, step).rev)
  {
    match step
    case Copy(f, read, wrote) => CopyKeepsLane(if f then input else output, LaneOf(s, f), read, wrote);
    case _ =>
  }

  lemma {:induction false} StepKeepsChan(cap: nat, s: State, step: Step)
    requires ChanInv(s) && Enabled(cap, s, step)
    ensures ChanInv(Apply(cap, s, step))
  {
    var t := Apply(cap, s, step);
    if step.Send? {
      assert forall n :: n in t.chan ==> n in s.chan || n == Note(step.forward, LaneOf(s, step.forward).copier.clean);
    } else if step.Receive? {
      assert s.chan[0] in s.chan;
      assert forall n :: n in t.chan ==> n in s.chan;
    }
  }

  lemma {:induction false} StepKeepsInv(cap: nat, input: Bytes, output: Bytes, s: State, step: Step)
    requires Inv(input, output, s) && Enabled(cap, s, step)
    ensures Inv(input, output, Apply(cap, s, step))
  {
    hide LaneInv, ChanInv, Apply, Enabled;
    StepKeepsLanes(cap, input, output, s, step);
    StepKeepsChan(cap, s, step);
  }

  lemma {:induction false} RunKeepsInv(cap: nat, input: Bytes, output: Bytes, steps: seq<Step>)
    requires Run(cap, Init(input, output), steps).Some?
    ensures Inv(input, output, Run(cap, Init(input, output), steps).value)
  {
    if steps == [] {
    } else {
      var n := |steps| - 1;
      RunKeepsInv(cap, input, output, steps[..n]);
      StepKeepsInv(cap, input, output, Run(cap, Init(input, output), steps[..n]).value, steps[n]);
    }
  }

  // --------------------------------------------------------------- theorems

  /** In every reachable state each sink holds a prefix of what its source sent. */
  lemma {:induction false} OutputIsPrefix(cap: nat, input: Bytes, output: Bytes, steps: seq<Step>, s: State)
    requires Run(cap, Init(input, output), steps) == Some(s)
    ensures s.fwd.written <= input && s.rev.written <= output
  {
    RunKeepsInv(cap, input, output, steps);
  }

  /** A direction that ended by a clean end of stream, first or second, delivered everything. */
  lemma {:induction false} CleanEndDeliveredAll(cap: nat, input: Bytes, output: Bytes, steps: seq<Step>, s: State)
    requires Run(cap, Init(input, output), steps) == Some(s)
    ensures s.fwd.copier == Done(true) ==> s.fwd.written == input
    ensures s.rev.copier == Done(true) ==> s.rev.written == output
    ensures s.recv.Returned? && s.recv.first.clean ==>
              if s.recv.first.forward then s.fwd.written == input else s.rev.written == output
  {
    RunKeepsInv(cap, input, output, steps);
  }

  /** With capacity at least one no copier is stuck on its send: there is room, or the receiver makes it. */
  lemma {:induction false} SendNeverStuck(
      cap: nat, input: Bytes, output: Bytes, steps: seq<Step>, s: State, f: bool)
    requires cap >= 1 && Run(cap, Init(input, output), steps) == Some(s) && LaneOf(s, f).copier.Sending?
    ensures Enabled(cap, s, Send(f)) || (Enabled(cap, s, Receive) && Enabled(cap, Apply(cap, s, Receive), Send(f)))
    ensures s.recv.Returned? ==> Enabled(cap, s, Send(f))
  {
    RunKeepsInv(cap, input, output, steps);
  }

  // ---------------------------------------------------------------- delivery

  /**
    Bytes do get across, in both directions: while a copier runs and both
    connections are open, the next n bytes of what its source has can reach its
    sink, whatever n, and the other direction is left alone.
   */
  lemma {:induction false} NextBytesDelivered(cap: nat, s0: State, steps: seq<Step>, s: State, f: bool, n: nat)
    returns (more: seq<Step>, t: State)
    requires Run(cap, s0, steps) == Some(s)
    requires LaneOf(s, f).copier == Running && s.srcOpen && s.dstOpen && n <= |LaneOf(s, f).unread|
    ensures Run(cap, s0, steps + more) == Some(t)
    ensures var l := LaneOf(s, f);
            LaneOf(t, f) == Lane(l.unread[n..], l.written + l.unread[..n], Running) && LaneOf(t, !f) == LaneOf(s, !f)
    ensures t.chan == s.chan && t.recv == s.recv && t.srcOpen && t.dstOpen
  {
    if n == 0 {
      more, t := [], s;
      assert steps + more == steps;
      var l := LaneOf(s, f);
      assert l.unread[0..] == l.unread && l.written + l.unread[..0] == l.written;
    } else {
      more, t := [Copy(f, n, n)], Apply(cap, s, Copy(f, n, n));
      RunSnoc(cap, s0, steps, s, Copy(f, n, n));
    }
  }

  /** A direction read to its end. */
  lemma {:induction false} LaneDelivered(cap: nat, s0: State, steps: seq<Step>, s: State, f: bool)
    returns (more: seq<Step>, t: State)
    requires Run(cap, s0, steps) == Some(s) && LaneOf(s, f).copier == Running && s.srcOpen && s.dstOpen
    ensures Run(cap, s0, steps + more) == Some(t)
    ensures LaneOf(t, f) == Lane([], LaneOf(s, f).written + LaneOf(s, f).unread, Sending(true))
    ensures LaneOf(t, !f) == LaneOf(s, !f) && t.chan == s.chan && t.recv == s.recv && t.srcOpen && t.dstOpen
  {
    var l := LaneOf(s, f);
    var u;
    more, u := NextBytesDelivered(cap, s0, steps, s, f, |l.unread|);
    assert l.unread[|l.unread|..] == [] && l.unread[..|l.unread|] == l.unread;
    t := Apply(cap, u, Eof(f));
    RunSnoc(cap, s0, steps + more, u, Eof(f));
    assert steps + more + [Eof(f)] == steps + (more + [Eof(f)]);
    more := more + [Eof(f)];
  }

  /** For all streams some run delivers both of them whole, each direction ending cleanly. */
  lemma {:induction false} BothDelivered(cap: nat, input: Bytes, output: Bytes) returns (steps: seq<Step>, t: State)
    requires cap >= 1
    ensures Run(cap, Init(input, output), steps) == Some(t)
    ensures t.fwd == Lane([], input, Done(true)) && t.rev == Lane([], output, Done(true))
  {
    var s0 := Init(input, output);
    var none: seq<Step> := [];
    assert Run(cap, s0, none) == Some(s0);
    var more, s1 := LaneDelivered(cap, s0, none, s0, true);
    assert [] + input == input && [] + output == output;
    steps := none + more;
    var more2, s2 := LaneDelivered(cap, s0, steps, s1, false);
    steps, t := BothSent(cap, s0, steps + more2, s2);
  }

  /**
    And they can fail to get across: a write may stop after any k bytes of what was
    read, which loses the rest, and a read may fail with the connections still
    open, which leaves the rest unread.
   */
  lemma {:induction false} BytesCanBeCut(cap: nat, s0: State, steps: seq<Step>, s: State, f: bool, k: nat)
    requires Run(cap, s0, steps) == Some(s) && LaneOf(s, f).copier == Running && s.srcOpen && s.dstOpen
    requires k < |LaneOf(s, f).unread|
    ensures var l := LaneOf(s, f);
            var t := Run(cap, s0, steps + [Copy(f, |l.unread|, k)]);
            t.Some? && LaneOf(t.value, f) == Lane([], l.written + l.unread[..k], Sending(false))
    ensures var t := Run(cap, s0, steps + [Fail(f)]);
            t.Some? && LaneOf(t.value, f) == LaneOf(s, f).(copier := Sending(false))
  {
    var l := LaneOf(s, f);
    RunSnoc(cap, s0, steps, s, Copy(f, |l.unread|, k));
    RunSnoc(cap, s0, steps, s, Fail(f));
    assert l.unread[|l.unread|..] == [];
  }

  /** Two finished copiers send, with the one receive between that a channel of one needs. */
  lemma {:induction false} BothSent(cap: nat, s0: State, steps: seq<Step>, s: State) returns (more: seq<Step>, t: State)
    requires cap >= 1 && Run(cap, s0, steps) == Some(s) && s.chan == [] && s.recv == Waiting
    requires s.fwd.copier == Sending(true) && s.rev.copier == Sending(true)
    ensures Run(cap, s0, more) == Some(t)
    ensures t.fwd == s.fwd.(copier := Done(true)) && t.rev == s.rev.(copier := Done(true))
  {
    var a := Apply(cap, s, Send(true));
    RunSnoc(cap, s0, steps, s, Send(true));
    var b := Apply(cap, a, Receive);
    RunSnoc(cap, s0, steps + [Send(true)], a, Receive);
    t := Apply(cap, b, Send(false));
    RunSnoc(cap, s0, steps + [Send(true)] + [Receive], b, Send(false));
    more := steps + [Send(true)] + [Receive] + [Send(false)];
  }

  function Phase(c: Copier): nat {
    match c case Running => 2 case Sending(_) => 1 case Done(_) => 0
  }

  /** Every step uses this up. */
  function Fuel(s: State): nat {
    |s.fwd.unread| + |s.rev.unread| + Phase(s.fwd.copier) + Phase(s.rev.copier)
    + (if s.recv == Waiting then 1 else 0) + (if s.srcOpen then 1 else 0) + (if s.dstOpen then 1 else 0)
  }

  lemma {:induction false} StepUsesFuel(cap: nat, s: State, step: Step)
    requires Enabled(cap, s, step)
    ensures Fuel(Apply(cap, s, step)) < Fuel(s)
  {
  }

  /** No run is longer than the fuel it starts with, so every run of the splice ends. */
  lemma {:induction false} RunsAreFinite(cap: nat, s: State, steps: seq<Step>)
    requires Run(cap, s, steps).Some?
    ensures |steps| + Fuel(Run(cap, s, steps).value) <= Fuel(s)
  {
    if steps == [] {
    } else {
      var n := |steps| - 1;
      RunsAreFinite(cap, s, steps[..n]);
      StepUsesFuel(cap, Run(cap, s, steps[..n]).value, steps[n]);
    }
  }

  /** Both copiers have finished, the session has returned and both connections are closed. */
  predicate Final(s: State) {
    s.fwd.copier.Done? && s.rev.copier.Done? && s.recv.Returned? && !s.srcOpen && !s.dstOpen
  }

  /** Steps that wait for no peer: sends, the receive, the closes, and a copier noticing a closed connection. */
  predicate Unprompted(s: State, step: Step) {
    match step
    case Send(_) => true
    case Receive => true
    case Close(_) => true
    case Fail(f) => !ReadOpen(s, f)
    case _ => false
  }

  /** Once one direction has ended, the session can always go on by itself until everything is down. */
  lemma {:induction false} TearDownProceeds(cap: nat, input: Bytes, output: Bytes, steps: seq<Step>, s: State)
    requires cap >= 1 && Run(cap, Init(input, output), steps) == Some(s)
    requires s.fwd.copier != Running || s.rev.copier != Running
    ensures Final(s) || exists step :: Enabled(cap, s, step) && Unprompted(s, step)
  {
    RunKeepsInv(cap, input, output, steps);
    if s.recv == Waiting {
      if s.chan != [] {
        assert Enabled(cap, s, Receive) && Unprompted(s, Receive);
      } else {
        var f := s.fwd.copier.Sending?;
        assert Enabled(cap, s, Send(f)) && Unprompted(s, Send(f));
      }
    } else if s.srcOpen || s.dstOpen {
      assert Enabled(cap, s, Close(s.srcOpen)) && Unprompted(s, Close(s.srcOpen));
    } else if !Final(s) {
      var f := !s.fwd.copier.Done?;
      if LaneOf(s, f).copier == Running {
        assert Enabled(cap, s, Fail(f)) && Unprompted(s, Fail(f));
      } else {
        assert Enabled(cap, s, Send(f)) && Unprompted(s, Send(f));
      }
    }
  }

  /** These steps follow a run, and none of them waits for a peer. */
  predicate UnpromptedAfter(cap: nat, s0: State, steps: seq<Step>, more: seq<Step>) {
    forall k :: 0 <= k < |more| ==>
                  var s := Run(cap, s0, steps + more[..k]);
                  s.Some? && Unprompted(s.value, more[k])
  }

  /** So once one direction has ended, steps that wait for no peer take everything down. */
  lemma {:induction false} TearDownCompletes(cap: nat, input: Bytes, output: Bytes, steps: seq<Step>, s: State)
    returns (more: seq<Step>, t: State)
    requires cap >= 1 && Run(cap, Init(input, output), steps) == Some(s)
    requires s.fwd.copier != Running || s.rev.copier != Running
    ensures Run(cap, Init(input, output), steps + more) == Some(t) && Final(t)
    ensures UnpromptedAfter(cap, Init(input, output), steps, more)
    decreases Fuel(s)
  {
    hide *;
    var s0 := Init(input, output);
    TearDownProceeds(cap, input, output, steps, s);
    if Final(s) {
      more, t := [], s;
      assert steps + more == steps;
      UnpromptedNone(cap, s0, steps);
    } else {
      var step :| Enabled(cap, s, step) && Unprompted(s, step);
      StepUsesFuel(cap, s, step);
      UnpromptedKeepsEnded(cap, s, step);
      RunSnoc(cap, s0, steps, s, step);
      var rest;
      rest, t := TearDownCompletes(cap, input, output, steps + [step], Apply(cap, s, step));
      more := [step] + rest;
      assert steps + more == steps + [step] + rest;
      UnpromptedCons(cap, s0, steps, s, step, rest);
    }
  }

  lemma {:induction false} UnpromptedNone(cap: nat, s0: State, steps: seq<Step>)
    ensures UnpromptedAfter(cap, s0, steps, [])
  {
  }

  lemma {:induction false} RunSnoc(cap: nat, s0: State, steps: seq<Step>, s: State, step: Step)
    requires Run(cap, s0, steps) == Some(s) && Enabled(cap, s, step)
    ensures Run(cap, s0, steps + [step]) == Some(Apply(cap, s, step))
  {
    assert (steps + [step])[..|steps|] == steps;
  }

  lemma {:induction false} UnpromptedKeepsEnded(cap: nat, s: State, step: Step)
    requires Enabled(cap, s, step) && Unprompted(s, step) && (s.fwd.copier != Running || s.rev.copier != Running)
    ensures var t := Apply(cap, s, step); t.fwd.copier != Running || t.rev.copier != Running
  {
  }

  lemma {:induction false} UnpromptedCons(cap: nat, s0: State, steps: seq<Step>, s: State, step: Step, rest: seq<Step>)
    requires Run(cap, s0, steps) == Some(s) && Unprompted(s, step) && UnpromptedAfter(cap, s0, steps + [step], rest)
    ensures UnpromptedAfter(cap, s0, steps, [step] + rest)
  {
    hide Run, Unprompted;
    var more := [step] + rest;
    forall k | 0 <= k < |more|
      ensures Run(cap, s0, steps + more[..k]).Some? && Unprompted(Run(cap, s0, steps + more[..k]).value, more[k])
    {
      if k == 0 {
        assert steps + more[..0] == steps;
      } else {
        assert steps + more[..k] == steps + [step] + rest[..k - 1];
      }
    }
  }

  /** The other half of the bound: after the closes at most four more steps happen, whatever is left unread. */
  lemma {:induction false} ClosedSessionEnds(cap: nat, s: State, steps: seq<Step>)
    requires s.recv.Returned? && !s.srcOpen && !s.dstOpen && Run(cap, s, steps).Some?
    ensures |steps| <= Phase(s.fwd.copier) + Phase(s.rev.copier)
    ensures var t := Run(cap, s, steps).value;
            && t.fwd.written == s.fwd.written && t.rev.written == s.rev.written
            && t.recv == s.recv && !t.srcOpen && !t.dstOpen
            && |steps| + Phase(t.fwd.copier) + Phase(t.rev.copier) == Phase(s.fwd.copier) + Phase(s.rev.copier)
  {
    if steps == [] {
    } else {
      ClosedSessionEnds(cap, s, steps[..|steps| - 1]);
    }
  }

  // ------------------------------------------------- the hijacked connection

  /**
    `ServeHTTP` drops the hijacked connection's buffered reader, so the copier
    sees only what arrives later. The upstream is sure to hold a prefix of what
    the client sent if and only if nothing had been buffered.
   */
  lemma {:induction false} HijackPrefixIffNothingBuffered(cap: nat, buffered: Bytes)
    requires cap >= 1
    ensures buffered == [] <==>
            forall later: Bytes, output: Bytes, steps: seq<Step> | Run(cap, Init(later, output), steps).Some? ::
              Run(cap, Init(later, output), steps).value.fwd.written <= buffered + later
  {
    if buffered == [] {
      forall later: Bytes, output: Bytes, steps: seq<Step> | Run(cap, Init(later, output), steps).Some?
        ensures Run(cap, Init(later, output), steps).value.fwd.written <= buffered + later
      {
        OutputIsPrefix(cap, later, output, steps, Run(cap, Init(later, output), steps).value);
        assert buffered + later == later;
      }
    } else {
      var other: byte := if buffered[0] == 0 then 1 else 0;
      var step := Copy(true, 1, 1);
      var s0 := Init([other], []);
      assert Run(cap, s0, []) == Some(s0);
      assert [step][..0] == [];
      assert Enabled(cap, s0, step);
      var t := Run(cap, s0, [step]);
      assert t == Some(Apply(cap, s0, step));
      assert t.value.fwd.written == [other];
      assert (buffered + [other])[0] == buffered[0];
      assert !(Run(cap, Init([other], []), [step]).value.fwd.written <= buffered + [other]);
    }
  }

  /** In one run: after a clean end of the client's direction, exactly the buffered bytes are missing upstream. */
  lemma {:induction false} HijackLosesBuffer(
      cap: nat, buffered: Bytes, later: Bytes, output: Bytes, steps: seq<Step>, s: State)
    requires Run(cap, Init(later, output), steps) == Some(s) && s.fwd.copier == Done(true)
    ensures s.fwd.written == later && |buffered + later| - |s.fwd.written| == |buffered|
    ensures s.fwd.written == buffered + later <==> buffered == []
  {
    CleanEndDeliveredAll(cap, later, output, steps, s);
    hide *;
    if buffered == [] {
      assert buffered + later == later;
    }
  }
}
