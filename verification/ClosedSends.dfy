/**
 When a send can meet a closed channel.  The source does not exclude it: CloseStream, called because
 a browser went away, may run between DeliverFrame's lookup and its send.  That overlap is shown to
 be the only way, and always a way, to panic; the panic ends the read loop and nothing else.
 */
module ClosedSends {
  import opened Wrappers
  import opened Tunnel
  import opened Streams
  import Requests

  /** The state after the first `n` actions of a run. */
  ghost function At(run: seq<Action>, n: nat): State
    requires Run(run).Some? && n <= |run|
  {
    RunPrefix(run, n);
    Run(run[..n]).value
  }

  lemma {:induction false} AtStep(run: seq<Action>, n: nat)
    requires Run(run).Some? && n < |run|
    ensures Step(At(run, n), run[n]) == Some(At(run, n + 1))
    ensures Inv(At(run, n)) && Inv(At(run, n + 1))
  {
    hide Step;
    RunPrefix(run, n);
    RunPrefix(run, n + 1);
    assert run[..n+1] == run[..n] + [run[n]];
    RunSnoc(run[..n], run[n]);
    RunKeeps(run[..n]);
    RunKeeps(run[..n+1]);
  }

  /** Positions `i` and `p`: DeliverFrame's lookup and its send, with no step of the read loop
      between.  Positions `m` and `j`: handler `t`, leaving because its client did, deletes the entry
      and then closes the channel that DeliverFrame found. */
  ghost predicate FrameRace(run: seq<Action>, p: nat, i: nat, m: nat, j: nat, t: nat)
    requires Run(run).Some?
  {
    && i < m < j < p < |run|
    && run[i].Loop? && run[i].le.GetFrame? && At(run, i + 1).loop.Framing?
    && (forall n :: i < n < p ==> !run[n].Loop?)
    && run[m] == Sse(Cut(t))
    && run[j] == Sse(CloseCut(t)) && t < |At(run, j).sse.strs|
    && At(run, j).sse.strs[t].phase == Cutting(At(run, i + 1).loop.k)
    && run[p] == Loop(PutFrame)
  }

  // ---------------------------------------------------------------- a panic needs the overlap

  /** Handler `t` began to cut off a stream at `m`, after the lookup at `i`. */
  predicate CutSince(run: seq<Action>, i: nat, t: nat, m: nat) {
    i < m < |run| && run[m] == Sse(Cut(t))
  }

  /** Handler `t` cut off and closed stream `k` after the lookup at `i`. */
  ghost predicate ClosedSince(run: seq<Action>, i: nat, k: nat, t: nat, m: nat, j: nat)
    requires Run(run).Some?
  {
    && CutSince(run, i, t, m)
    && m < j < |run| && run[j] == Sse(CloseCut(t))
    && t < |At(run, j).sse.strs| && At(run, j).sse.strs[t].phase == Cutting(k)
  }

  /** The lookup for the frame being delivered was at `i`, and whatever has been done to the stream
      since then was done by handlers whose client left. */
  ghost predicate Delivering(run: seq<Action>, i: nat)
    requires Run(run).Some? && Run(run).value.loop.Framing? && Inv(Run(run).value)
  {
    var s := Run(run).value;
    && i < |run|
    && run[i] == Loop(GetFrame(s.loop.frame))
    && At(run, i + 1).loop == s.loop
    && (forall n :: i < n < |run| ==> !run[n].Loop?)
    && (forall t :: 0 <= t < |s.sse.strs| && s.sse.strs[t].phase == Cutting(s.loop.k) ==> exists m :: CutSince(run, i, t, m))
    && (s.sse.strs[s.loop.k].ch.closed ==> exists t, m, j :: ClosedSince(run, i, s.loop.k, t, m, j))
  }

  /** How the read loop comes to be delivering a frame. */
  lemma Framed(s: State, a: Action)
    requires Inv(s) && Step(s, a).Some? && Step(s, a).value.loop.Framing?
    ensures var s' := Step(s, a).value;
            && Inv(s')
            && (a.Loop? ==>
                  && a == Loop(GetFrame(s'.loop.frame))
                  && s'.sse == s.sse
                  && Mapped(s, s'.loop.k))
            && (!a.Loop? ==> s'.loop == s.loop)
  {
    StepKeeps(s, a);
  }

  /** Only handler `t` itself can begin its own cut. */
  lemma BeginsCut(s: State, a: Action, t: nat, k: nat)
    requires Step(s, a).Some? && t < |Step(s, a).value.sse.strs|
    requires Step(s, a).value.sse.strs[t].phase == Cutting(k)
    ensures (t < |s.sse.strs| && s.sse.strs[t].phase == Cutting(k)) || a == Sse(Cut(t))
  {
    StreamsOnlyGrow(s, a);
  }

  lemma FoundStream(s: State)
    requires Inv(s) && s.loop.Framing?
    ensures s.loop.k < |s.sse.strs|
  {
  }

  lemma AtPrefix(before: seq<Action>, a: Action, n: nat)
    requires Run(before + [a]).Some? && n <= |before|
    ensures Run(before).Some? && At(before + [a], n) == At(before, n)
  {
    RunSnoc(before, a);
    assert (before + [a])[..n] == before[..n];
  }

  lemma CutsCarryOver(before: seq<Action>, a: Action, i: nat)
    requires Run(before + [a]).Some? && Run(before).Some? && Inv(Run(before).value) && Inv(Run(before + [a]).value)
    requires !a.Loop? && Run(before).value.loop.Framing? && Run(before + [a]).value.loop == Run(before).value.loop
    requires Step(Run(before).value, a) == Run(before + [a])
    requires Delivering(before, i)
    ensures Delivering(before + [a], i)
  {
    hide Step, Run, Inv, Mapped, CutterSound, Sound;
    var s, run := Run(before).value, before + [a];
    var s', k := Run(run).value, s.loop.k;
    AtPrefix(before, a, i + 1);
    forall t | 0 <= t < |s'.sse.strs| && s'.sse.strs[t].phase == Cutting(k)
      ensures exists m :: CutSince(run, i, t, m)
    {
      BeginsCut(s, a, t, k);
      if a == Sse(Cut(t)) {
        assert CutSince(run, i, t, |before|);
      } else {
        var m :| CutSince(before, i, t, m);
        assert CutSince(run, i, t, m);
      }
    }
    assert k < |s.sse.strs| && k < |s'.sse.strs| && Moves(s, a, s', k) by {
      FoundStream(s);
      StepMoves(s, a, k);
    }
    if s'.sse.strs[k].ch.closed {
      if s.sse.strs[k].ch.closed {
        var t, m, j :| ClosedSince(before, i, k, t, m, j);
        AtPrefix(before, a, j);
        assert ClosedSince(run, i, k, t, m, j);
      } else {
        var t := a.se.k;
        var m :| CutSince(before, i, t, m);
        AtPrefix(before, a, |before|);
        assert before[..|before|] == before;
        assert ClosedSince(run, i, k, t, m, |before|);
      }
    }
  }

  lemma FreshLookup(before: seq<Action>, a: Action)
    requires Run(before + [a]).Some? && Run(before).Some? && Inv(Run(before).value) && Inv(Run(before + [a]).value)
    requires Run(before + [a]).value.loop.Framing?
    requires a == Loop(GetFrame(Run(before + [a]).value.loop.frame))
    requires Run(before + [a]).value.sse == Run(before).value.sse
    requires Mapped(Run(before).value, Run(before + [a]).value.loop.k)
    ensures Delivering(before + [a], |before|)
  {
    hide Step, Run;
    var s, run := Run(before).value, before + [a];
    var k := Run(run).value.loop.k;
    assert run[..|run|] == run;
    assert EntrySound(s, s.sse.strs[k].id);
    assert forall t :: 0 <= t < |s.sse.strs| && s.sse.strs[t].phase.Cutting? ==> CutterSound(s, t);
  }

  lemma {:induction false} DeliveryTrace(run: seq<Action>) returns (i: nat)
    requires Run(run).Some? && Run(run).value.loop.Framing?
    ensures Inv(Run(run).value) && Delivering(run, i)
  {
    hide Step, Inv, Delivering;
    var before, a := run[..|run|-1], run[|run|-1];
    assert before + [a] == run;
    RunKeeps(before);
    RunKeeps(run);
    Framed(Run(before).value, a);
    if a.Loop? {
      FreshLookup(before, a);
      i := |before|;
    } else {
      i := DeliveryTrace(before);
      CutsCarryOver(before, a, i);
    }
  }

  /** Only a send of a frame on a closed channel panics. */
  lemma PanicIsASend(s: State, a: Action)
    requires Inv(s) && Requests.Inv(s)
    ensures Panics(s, a) <==>
            a == Loop(PutFrame) && s.loop.Framing? && s.loop.k < |s.sse.strs| && s.sse.strs[s.loop.k].ch.closed
  {
    if a.Sse? && a.se.CloseCut? && a.se.k < |s.sse.strs| && s.sse.strs[a.se.k].phase.Cutting? {
      assert CutterSound(s, a.se.k);
    }
  }

  // ---------------------------------------------------------------- the overlap panics

  /** From its lookup on, as long as the read loop takes no step, DeliverFrame keeps its channel, and
      a closed channel stays closed. */
  lemma {:induction false} Persists(run: seq<Action>, n: nat, last: nat, k: nat)
    requires Run(run).Some? && n <= last <= |run|
    requires forall p :: n <= p < last ==> !run[p].Loop?
    requires k < |At(run, n).sse.strs|
    ensures k < |At(run, last).sse.strs|
    ensures At(run, last).loop == At(run, n).loop
    ensures At(run, n).sse.strs[k].ch.closed ==> At(run, last).sse.strs[k].ch.closed
    decreases last - n
  {
    hide Step, Inv, Run, At;
    if n < last {
      AtStep(run, n);
      StepMoves(At(run, n), run[n], k);
      OnlyTheLoopMoves(At(run, n), run[n]);
      Persists(run, n + 1, last, k);
    }
  }

  lemma OnlyTheLoopMoves(s: State, a: Action)
    requires Step(s, a).Some? && !a.Loop?
    ensures Step(s, a).value.loop == s.loop
  {
  }

  lemma ClosingCloses(s: State, t: nat, k: nat)
    requires Inv(s) && Step(s, Sse(CloseCut(t))).Some? && t < |s.sse.strs| && s.sse.strs[t].phase == Cutting(k)
    ensures k < |Step(s, Sse(CloseCut(t))).value.sse.strs| && Step(s, Sse(CloseCut(t))).value.sse.strs[k].ch.closed
  {
    assert CutterSound(s, t);
  }

  lemma {:induction false} RacePanics(run: seq<Action>, p: nat, i: nat, m: nat, j: nat, t: nat)
    requires Run(run).Some? && FrameRace(run, p, i, m, j, t)
    ensures Panics(At(run, p), run[p])
  {
    hide Step, Run, Inv, At;
    var k := At(run, i + 1).loop.k;
    AtStep(run, j);
    AtStep(run, i);
    FoundStream(At(run, i + 1));
    ClosingCloses(At(run, j), t, k);
    Persists(run, i + 1, p, k);
    Persists(run, j + 1, p, k);
  }

  // ---------------------------------------------------------------- exactly the overlap

  /** At any point of any run the next action panics if and only if it is a DeliverFrame send whose
      channel a handler, leaving because its client disconnected, cut off and closed since the lookup.
      The panic takes the read loop to its deferred cleanup and changes nothing else. */
  lemma {:induction false} PanicsExactlyOnOverlap(run: seq<Action>, p: nat)
    requires Run(run).Some? && p < |run|
    ensures Panics(At(run, p), run[p]) <==> exists i: nat, m: nat, j: nat, t: nat :: FrameRace(run, p, i, m, j, t)
    ensures Panics(At(run, p), run[p]) ==> At(run, p + 1) == At(run, p).(loop := Exiting)
  {
    hide Step, Inv, Panics, At, Run, FrameRace;
    if exists i: nat, m: nat, j: nat, t: nat :: FrameRace(run, p, i, m, j, t) {
      var i: nat, m: nat, j: nat, t: nat :| FrameRace(run, p, i, m, j, t);
      RacePanics(run, p, i, m, j, t);
    }
    if Panics(At(run, p), run[p]) {
      PanicNeedsOverlap(run, p);
    }
  }

  lemma {:induction false} PanicNeedsOverlap(run: seq<Action>, p: nat)
    requires Run(run).Some? && p < |run| && Panics(At(run, p), run[p])
    ensures exists i: nat, m: nat, j: nat, t: nat :: FrameRace(run, p, i, m, j, t)
    ensures At(run, p + 1) == At(run, p).(loop := Exiting)
  {
    hide Step, Inv, Requests.Inv, Panics, Run;
    var before, s := run[..p], At(run, p);
    AtStep(run, p);
    RunPrefix(run, p);
    RunKeeps(before);
    Requests.RunKeeps(before);
    PanicIsASend(s, run[p]);
    PanicStep(s, run[p]);
    var i := DeliveryTrace(before);
    var t, m, j :| ClosedSince(before, i, s.loop.k, t, m, j);
    AtTake(run, p, i + 1);
    AtTake(run, p, j);
    assert FrameRace(run, p, i, m, j, t);
  }

  lemma AtTake(run: seq<Action>, p: nat, n: nat)
    requires Run(run).Some? && n <= p <= |run|
    ensures Run(run[..p]).Some? && At(run[..p], n) == At(run, n)
  {
    RunPrefix(run, p);
    assert run[..p][..n] == run[..n];
  }

  lemma PanicStep(s: State, a: Action)
    requires Panics(s, a) && a == Loop(PutFrame) && Step(s, a).Some?
    ensures Step(s, a).value == s.(loop := Exiting)
  {
  }

  /** A read loop that is over never delivers anything again: a connection panics at most once. */
  lemma {:induction false} OverForGood(run: seq<Action>, n: nat, last: nat)
    requires Run(run).Some? && n <= last <= |run| && LoopIsOver(At(run, n))
    ensures LoopIsOver(At(run, last))
    decreases last - n
  {
    hide Step, Inv, Run, At, LoopIsOver;
    if n < last {
      AtStep(run, n);
      OverStays(At(run, n), run[n]);
      OverForGood(run, n + 1, last);
    }
  }

  lemma OverStays(s: State, a: Action)
    requires Step(s, a).Some? && LoopIsOver(s)
    ensures LoopIsOver(Step(s, a).value)
  {
  }

  lemma {:induction false} PanicsOnlyOnce(run: seq<Action>, p: nat, q: nat)
    requires Run(run).Some? && p < |run| && q < |run| && Panics(At(run, p), run[p]) && Panics(At(run, q), run[q])
    ensures p == q
  {
    hide Step, Inv, Run, At, Panics;
    if p != q {
      var first, second := if p < q then p else q, if p < q then q else p;
      PanicsExactlyOnOverlap(run, first);
      OverForGood(run, first + 1, second);
      OverDoesNotPanic(run, second);
    }
  }

  lemma OverDoesNotPanic(run: seq<Action>, p: nat)
    requires Run(run).Some? && p < |run| && LoopIsOver(At(run, p))
    ensures !Panics(At(run, p), run[p])
  {
    hide Step, Inv, Requests.Inv, Panics, Run;
    RunPrefix(run, p);
    RunKeeps(run[..p]);
    Requests.RunKeeps(run[..p]);
    PanicIsASend(At(run, p), run[p]);
  }

  /** The overlap is possible: a stream is opened, its client leaves, a frame for it is looked up,
      the handler cuts the stream off and closes the channel, and the send panics. */
  const OVERLAP: seq<Action> := [
    Loop(Register), Sse(Open("a")), Sse(Opened(0)), Sse(ClientLeaves(0)),
    Loop(GetFrame(Frame("a", "data"))), Sse(Cut(0)), Sse(CloseCut(0)), Loop(PutFrame)]

  /** What that run has reached after its first `n` actions. */
  predicate OverlapReached(s: State, n: nat) {
    && s.loop == (if n == 0 then Starting else if n < 5 then Reading else Framing(0, Frame("a", "data")))
    && |s.sse.strs| == (if n < 2 then 0 else 1)
    && (n >= 2 ==>
          && s.sse.strs[0].id == "a"
          && s.sse.strs[0].ch.closed == (n >= 7)
          && s.sse.strs[0].phase == (if n == 2 then Opening else if n == 3 then Relaying else if n < 6 then Disconnected
                                     else if n == 6 then Cutting(0) else Ended(ClientGone))
          && (n < 6 ==> "a" in s.sse.streams && s.sse.streams["a"] == 0))
  }

  lemma OverlapStep(s: State, n: nat)
    requires n < 7 && OverlapReached(s, n)
    ensures Step(s, OVERLAP[n]).Some? && OverlapReached(Step(s, OVERLAP[n]).value, n + 1)
  {
  }

  lemma {:induction false} OverlapRuns(n: nat)
    requires n <= 7
    ensures Run(OVERLAP[..n]).Some? && OverlapReached(Run(OVERLAP[..n]).value, n)
  {
    hide Step;
    if n > 0 {
      OverlapRuns(n - 1);
      OverlapStep(Run(OVERLAP[..n-1]).value, n - 1);
      RunSnoc(OVERLAP[..n-1], OVERLAP[n-1]);
      assert OVERLAP[..n] == OVERLAP[..n-1] + [OVERLAP[n-1]];
    }
  }

  lemma {:induction false} OverlapPanics()
    ensures Run(OVERLAP).Some? && Panics(At(OVERLAP, 7), OVERLAP[7])
    ensures FrameRace(OVERLAP, 7, 4, 5, 6, 0)
  {
    hide Run;
    OverlapRuns(7);
    OverlapRuns(6);
    OverlapRuns(5);
    RunSnoc(OVERLAP[..7], OVERLAP[7]);
    assert OVERLAP == OVERLAP[..7] + [OVERLAP[7]];
  }
}
