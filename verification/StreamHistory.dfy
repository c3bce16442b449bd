/**
 Histories of one stream over a whole run: every frame that arrived for it is accounted for, in
 order, and a stream that ends normally without overflow shows exactly what was on the wire.
 */
module StreamHistory {
  import opened Wrappers
  import opened Tunnel
  import opened Streams

  /** How often the run has closed the channel of stream `k`. */
  ghost function CloseCount(run: seq<Action>, k: nat): nat
    requires Run(run).Some?
  {
    if run == [] then 0
    else
      var before := run[..|run|-1];
      CloseCount(before, k) + (if Closes(Run(before).value, run[|run|-1], k) then 1 else 0)
  }

  /** The frames for which DeliverFrame found stream `k`, in order of arrival. */
  ghost function Arrived(run: seq<Action>, k: nat): seq<Frame>
    requires Run(run).Some?
  {
    if run == [] then []
    else
      var before := run[..|run|-1];
      Arrived(before, k) + ArrivedNow(Run(before).value, run[|run|-1], k)
  }

  /** The frames whose delivery to stream `k` is over, in order, each marked with what became of it. */
  ghost function Log(run: seq<Action>, k: nat): seq<Settled>
    requires Run(run).Some?
  {
    if run == [] then []
    else
      var before := run[..|run|-1];
      Log(before, k) + SettledNow(Run(before).value, run[|run|-1], k)
  }

  /** `xs` can be got from `ys` by leaving elements out. */
  predicate IsSubsequence(xs: seq<Frame>, ys: seq<Frame>) {
    if xs == [] then true
    else if ys == [] then false
    else
      || (xs[|xs|-1] == ys[|ys|-1] && IsSubsequence(xs[..|xs|-1], ys[..|ys|-1]))
      || IsSubsequence(xs, ys[..|ys|-1])
  }

  lemma LogOne(log: seq<Settled>, x: Settled)
    ensures Kept(log + [x]) == Kept(log) + (if x.Accepted? then [x.frame] else [])
    ensures Lost(log + [x]) == Lost(log) + (if x.Dropped? then [x.frame] else [])
    ensures Panicked(log + [x]) == Panicked(log) + (if x.Blown? then [x.frame] else [])
  {
    assert (log + [x])[..|log|] == log;
  }

  lemma FramesOne(log: seq<Settled>, x: Settled)
    ensures Frames(log + [x]) == Frames(log) + [x.frame]
  {
  }

  lemma LogNothing()
    ensures Kept([]) == [] && Lost([]) == [] && Panicked([]) == [] && Frames([]) == []
  {
  }

  lemma {:induction false} CountsAddUp(log: seq<Settled>)
    ensures |Kept(log)| + |Lost(log)| + |Panicked(log)| == |log|
  {
    hide Kept, Lost, Panicked;
    if log == [] {
      LogNothing();
    } else {
      CountsAddUp(log[..|log|-1]);
      LogOne(log[..|log|-1], log[|log|-1]);
      assert log == log[..|log|-1] + [log[|log|-1]];
    }
  }

  lemma SubsequenceSnoc(xs: seq<Frame>, ys: seq<Frame>, y: Frame)
    requires IsSubsequence(xs, ys)
    ensures IsSubsequence(xs, ys + [y]) && IsSubsequence(xs + [y], ys + [y])
  {
    assert (ys + [y])[..|ys|] == ys && (xs + [y])[..|xs|] == xs;
  }

  lemma {:induction false} KeptIsSubsequence(log: seq<Settled>, rest: seq<Frame>)
    requires |rest| <= 1
    ensures IsSubsequence(Kept(log), Frames(log) + rest)
    decreases |log|, |rest|
  {
    hide Kept, Frames, IsSubsequence;
    if rest != [] {
      KeptIsSubsequence(log, []);
      SubsequenceSnoc(Kept(log), Frames(log) + [], rest[0]);
      assert Frames(log) + rest == Frames(log) + [] + [rest[0]];
    } else if log == [] {
      LogNothing();
      NothingIsSubsequence(Frames(log) + rest);
    } else {
      var front, x := log[..|log|-1], log[|log|-1];
      KeptIsSubsequence(front, []);
      LogOne(front, x);
      FramesOne(front, x);
      SubsequenceSnoc(Kept(front), Frames(front) + [], x.frame);
      assert log == front + [x];
      assert Frames(log) + rest == Frames(front) + [] + [x.frame];
      assert Kept(front) + [] == Kept(front);
    }
  }

  lemma NothingIsSubsequence(ys: seq<Frame>)
    ensures IsSubsequence([], ys)
  {
  }

  lemma LogSnoc(log: seq<Settled>, now: seq<Settled>)
    requires |now| <= 1
    ensures Kept(log + now) == Kept(log) + Kept(now)
    ensures Panicked(log + now) == Panicked(log) + Panicked(now)
    ensures Frames(log + now) == Frames(log) + Frames(now)
  {
    hide Kept, Lost, Panicked, Frames;
    LogNothing();
    if now != [] {
      assert now == [] + [now[0]];
      LogOne(log, now[0]);
      LogOne([], now[0]);
      FramesOne(log, now[0]);
      FramesOne([], now[0]);
      assert log + now == log + [now[0]];
    } else {
      assert log + now == log;
    }
  }

  ghost predicate Accounted(run: seq<Action>, k: nat)
    requires Run(run).Some?
  {
    var s := Run(run).value;
    if k < |s.sse.strs| then
      && CloseCount(run, k) == (if s.sse.strs[k].ch.closed then 1 else 0)
      && s.sse.strs[k].out + s.sse.strs[k].ch.buf == Kept(Log(run, k))
      && Arrived(run, k) == Frames(Log(run, k)) + InFlight(s, k)
    else
      CloseCount(run, k) == 0 && Arrived(run, k) == [] && Log(run, k) == []
  }

  /** Nothing happens to a stream before it is opened. */
  lemma NothingYet(s: State, a: Action, k: nat)
    requires Inv(s) && Step(s, a).Some? && k >= |s.sse.strs|
    ensures !Closes(s, a, k) && ArrivedNow(s, a, k) == [] && SettledNow(s, a, k) == [] && InFlight(s, k) == []
  {
    if a.Sse? && a.se.CloseCut? && a.se.k < |s.sse.strs| && s.sse.strs[a.se.k].phase.Cutting? {
      assert CutterSound(s, a.se.k);
    }
  }

  lemma {:induction false} AllAccounted(run: seq<Action>, k: nat)
    requires Run(run).Some?
    ensures Accounted(run, k)
  {
    hide Step;
    if run != [] {
      var before, a := run[..|run|-1], run[|run|-1];
      var s := Run(before).value;
      AllAccounted(before, k);
      RunKeeps(before);
      StreamsOnlyGrow(s, a);
      if k < |s.sse.strs| {
        StepMoves(s, a, k);
        AccountedStep(s, a, Step(s, a).value, k, Log(before, k), Arrived(before, k));
      } else {
        NothingYet(s, a, k);
      }
    }
  }

  lemma AccountedStep(s: State, a: Action, s': State, k: nat, log: seq<Settled>, arrived: seq<Frame>)
    requires k < |s.sse.strs| && k < |s'.sse.strs| && Moves(s, a, s', k)
    requires s.sse.strs[k].out + s.sse.strs[k].ch.buf == Kept(log)
    requires arrived == Frames(log) + InFlight(s, k)
    ensures s'.sse.strs[k].out + s'.sse.strs[k].ch.buf == Kept(log + SettledNow(s, a, k))
    ensures arrived + ArrivedNow(s, a, k) == Frames(log + SettledNow(s, a, k)) + InFlight(s', k)
  {
    LogSnoc(log, SettledNow(s, a, k));
    assert arrived + ArrivedNow(s, a, k) == Frames(log) + (InFlight(s, k) + ArrivedNow(s, a, k));
  }

  // ---------------------------------------------------------------- the frame of a panic

  /** A handler with the id of stream `k` has ended because its client left. */
  ghost predicate Abandoned(s: State, k: nat)
    requires k < |s.sse.strs|
  {
    exists t :: 0 <= t < |s.sse.strs| && s.sse.strs[t].id == s.sse.strs[k].id && s.sse.strs[t].phase == Ended(ClientGone)
  }

  /** `blown` are the frames for stream `k` whose send has panicked. */
  ghost predicate PanicsExplained(s: State, k: nat, blown: seq<Frame>)
    requires k < |s.sse.strs|
  {
    && |blown| <= 1
    && (blown != [] ==> LoopIsOver(s) && Abandoned(s, k))
    && (s.loop.Framing? && s.loop.k == k && s.sse.strs[k].ch.closed ==> Abandoned(s, k))
  }

  lemma StaysAbandoned(s: State, a: Action, k: nat)
    requires Step(s, a).Some? && k < |s.sse.strs| && Abandoned(s, k)
    ensures k < |Step(s, a).value.sse.strs| && Abandoned(Step(s, a).value, k)
  {
    var t :| 0 <= t < |s.sse.strs| && s.sse.strs[t].id == s.sse.strs[k].id && s.sse.strs[t].phase == Ended(ClientGone);
    StreamsOnlyGrow(s, a);
    assert Step(s, a).value.sse.strs[t].phase == Ended(ClientGone) by {
      EndedForGood(s, a, t);
    }
  }

  lemma EndedForGood(s: State, a: Action, t: nat)
    requires Step(s, a).Some? && t < |s.sse.strs| && s.sse.strs[t].phase.Ended?
    ensures t < |Step(s, a).value.sse.strs| && Step(s, a).value.sse.strs[t].phase == s.sse.strs[t].phase
  {
  }

  lemma CutterAbandons(s: State, t: nat, k: nat)
    requires Inv(s) && Step(s, Sse(CloseCut(t))).Some? && k < |s.sse.strs| && Closes(s, Sse(CloseCut(t)), k)
    ensures k < |Step(s, Sse(CloseCut(t))).value.sse.strs| && Abandoned(Step(s, Sse(CloseCut(t))).value, k)
  {
    assert CutterSound(s, t);
    var s' := Step(s, Sse(CloseCut(t))).value;
    assert s'.sse.strs[t].phase == Ended(ClientGone) && s'.sse.strs[t].id == s'.sse.strs[k].id;
  }

  /** What a step does to the read loop as far as deliveries to stream `k` go. */
  predicate Delivers(s: State, a: Action, s': State, k: nat)
    requires k < |s.sse.strs| && k < |s'.sse.strs|
  {
    && (LoopIsOver(s) ==> LoopIsOver(s') && SettledNow(s, a, k) == [])
    && (Panicked(SettledNow(s, a, k)) != [] ==>
          s.loop.Framing? && s.loop.k == k && s.sse.strs[k].ch.closed && LoopIsOver(s'))
    && |Panicked(SettledNow(s, a, k))| <= 1
    && (s'.loop.Framing? && s'.loop.k == k && s'.sse.strs[k].ch.closed ==>
          || (s.loop.Framing? && s.loop.k == k && s.sse.strs[k].ch.closed)
          || (a.Sse? && a.se.CloseCut? && Closes(s, a, k)))
  }

  lemma PutFrameDelivers(s: State, k: nat)
    requires Step(s, Loop(PutFrame)).Some? && k < |s.sse.strs|
    ensures k < |Step(s, Loop(PutFrame)).value.sse.strs|
    ensures Delivers(s, Loop(PutFrame), Step(s, Loop(PutFrame)).value, k)
  {
    hide Panicked;
    var now := SettledNow(s, Loop(PutFrame), k);
    LogNothing();
    if now != [] {
      LogOne([], now[0]);
      assert now == [] + [now[0]];
    }
  }

  lemma LoopDelivers(s: State, e: LoopEvent, k: nat)
    requires Inv(s) && Step(s, Loop(e)).Some? && k < |s.sse.strs|
    ensures k < |Step(s, Loop(e)).value.sse.strs| && Delivers(s, Loop(e), Step(s, Loop(e)).value, k)
  {
    if e == PutFrame {
      PutFrameDelivers(s, k);
    } else {
      LookupFindsOpen(s, e, k);
    }
  }

  lemma LookupFindsOpen(s: State, e: LoopEvent, k: nat)
    requires Inv(s) && Step(s, Loop(e)).Some? && k < |s.sse.strs|
    ensures var s' := Step(s, Loop(e)).value;
            s'.loop.Framing? && s'.loop.k == k ==> e.GetFrame? && !s.sse.strs[k].ch.closed && s'.sse == s.sse
  {
  }

  lemma StepDelivers(s: State, a: Action, k: nat)
    requires Inv(s) && Step(s, a).Some? && k < |s.sse.strs|
    ensures k < |Step(s, a).value.sse.strs| && Delivers(s, a, Step(s, a).value, k)
  {
    hide Inv, Mapped;
    StepMoves(s, a, k);
    match a
    case Http(e) =>
    case Loop(e) => LoopDelivers(s, e, k);
    case Sse(e) =>
    case CloseOther =>
  }

  lemma PanicsExplainedStep(s: State, a: Action, k: nat, log: seq<Settled>)
    requires Inv(s) && Step(s, a).Some? && k < |s.sse.strs|
    requires PanicsExplained(s, k, Panicked(log))
    ensures k < |Step(s, a).value.sse.strs|
    ensures PanicsExplained(Step(s, a).value, k, Panicked(log + SettledNow(s, a, k)))
  {
    hide Step, Inv, SettledNow, Closes, Abandoned;
    StepDelivers(s, a, k);
    assert |SettledNow(s, a, k)| <= 1 by { SettlesOne(s, a, k); }
    LogSnoc(log, SettledNow(s, a, k));
    if Abandoned(s, k) {
      StaysAbandoned(s, a, k);
    }
    if a.Sse? && a.se.CloseCut? && Closes(s, a, k) {
      CutterAbandons(s, a.se.k, k);
    }
  }

  lemma SettlesOne(s: State, a: Action, k: nat)
    ensures |SettledNow(s, a, k)| <= 1
  {
  }

  lemma {:induction false} PanicsHaveACause(run: seq<Action>, k: nat)
    requires Run(run).Some? && k < |Run(run).value.sse.strs|
    ensures PanicsExplained(Run(run).value, k, Panicked(Log(run, k)))
  {
    hide Step, Inv, PanicsExplained;
    var before, a := run[..|run|-1], run[|run|-1];
    var s := Run(before).value;
    RunKeeps(before);
    StreamsOnlyGrow(s, a);
    if k < |s.sse.strs| {
      PanicsHaveACause(before, k);
      PanicsExplainedStep(s, a, k, Log(before, k));
    } else {
      AllAccounted(before, k);
      NothingYet(s, a, k);
      NotYetDelivering(s, a, k);
      assert Log(run, k) == [];
    }
  }

  lemma NotYetDelivering(s: State, a: Action, k: nat)
    requires Inv(s) && Step(s, a).Some? && |s.sse.strs| <= k < |Step(s, a).value.sse.strs|
    ensures PanicsExplained(Step(s, a).value, k, [])
  {
    StreamsOnlyGrow(s, a);
  }

  // ---------------------------------------------------------------- every frame accounted for

  /** SSE refinement.  What the handler has written followed by what is buffered is, in order, the
      kept part of the log; the log in order, and then the frame being delivered, is everything that
      arrived.  Hence the output is a subsequence of what arrived, and
      arrived = written + buffered + lost to a full channel + gone with a panic + being delivered.  At
      most one frame goes with a panic, and only when the read loop is over and a handler with this id
      has ended because its client left. */
  lemma {:induction false} OutputRefinesArrivals(run: seq<Action>, k: nat)
    requires Run(run).Some? && k < |Run(run).value.sse.strs|
    ensures var s := Run(run).value;
            var r := s.sse.strs[k];
            && r.out + r.ch.buf == Kept(Log(run, k))
            && Arrived(run, k) == Frames(Log(run, k)) + InFlight(s, k)
            && IsSubsequence(r.out + r.ch.buf, Arrived(run, k))
            && |Arrived(run, k)| == |r.out| + |r.ch.buf| + |Lost(Log(run, k))| + |Panicked(Log(run, k))| + |InFlight(s, k)|
            && |Panicked(Log(run, k))| <= 1
            && (Panicked(Log(run, k)) != [] ==> LoopIsOver(s) && Abandoned(s, k))
            && |r.ch.buf| <= 32
            && (forall i :: 0 <= i < |r.out| ==> r.out[i].id == r.id)
  {
    RunKeeps(run);
    AllAccounted(run, k);
    PanicsHaveACause(run, k);
    KeptIsSubsequence(Log(run, k), InFlight(Run(run).value, k));
    CountsAddUp(Log(run, k));
  }

  /** A channel is closed at most once, exactly when it shows as closed; whichever of stream_end,
      client disconnect and failed open come together, the step that closes it finds it open and its
      table entry gone, and neither kind of close panics. */
  lemma {:induction false} ClosedOnceAfterRemoval(run: seq<Action>, k: nat, a: Action)
    requires Run(run + [a]).Some? && k < |Run(run + [a]).value.sse.strs|
    ensures CloseCount(run + [a], k) == if Run(run + [a]).value.sse.strs[k].ch.closed then 1 else 0
    ensures Run(run).Some?
    ensures Closes(Run(run).value, a, k) ==>
              && k < |Run(run).value.sse.strs|
              && !Run(run).value.sse.strs[k].ch.closed
              && !Mapped(Run(run).value, k)
              && !Panics(Run(run).value, a)
  {
    RunSnoc(run, a);
    AllAccounted(run + [a], k);
    RunKeeps(run);
    var s := Run(run).value;
    if k < |s.sse.strs| {
      StepMoves(s, a, k);
      if Closes(s, a, k) && a.Sse? {
        CloseCutMoves(s, a.se.k, k);
      }
    } else {
      NothingYet(s, a, k);
    }
  }

  // ---------------------------------------------------------------- the window on the wire

  /** All frames with this id among some wire events; it looks at no state. */
  function Wire(run: seq<Action>, id: string): seq<Frame> {
    if run == [] then []
    else
      var a := run[|run|-1];
      Wire(run[..|run|-1], id) + (if a.Loop? && a.le.GetFrame? && a.le.frame.id == id then [a.le.frame] else [])
  }

  /** The position at which stream `k` was opened. */
  ghost function OpenedAt(run: seq<Action>, k: nat): (p: nat)
    requires Run(run).Some? && k < |Run(run).value.sse.strs|
    ensures p < |run|
    ensures run[p] == Sse(Open(Run(run).value.sse.strs[k].id))
  {
    var before := run[..|run|-1];
    StreamsOnlyGrow(Run(before).value, run[|run|-1]);
    if k < |Run(before).value.sse.strs| then OpenedAt(before, k) else |run| - 1
  }

  /** The position at which the entry of stream `k` left the table, or the length of the run. */
  ghost function RemovedAt(run: seq<Action>, k: nat): (q: nat)
    requires Run(run).Some? && k < |Run(run).value.sse.strs|
    ensures OpenedAt(run, k) < q <= |run|
    ensures q == |run| <==> Mapped(Run(run).value, k)
  {
    var before, a := run[..|run|-1], run[|run|-1];
    StreamsOnlyGrow(Run(before).value, a);
    RunKeeps(before);
    if k < |Run(before).value.sse.strs| then
      StepMoves(Run(before).value, a, k);
      if RemovedAt(before, k) < |before| then RemovedAt(before, k)
      else if Mapped(Run(run).value, k) then |run|
      else |before|
    else
      |run|
  }

  /** Why the entry of stream `k` is gone, as the state still shows it. */
  ghost predicate RemovedBy(s: State, a: Action, k: nat)
    requires k < |s.sse.strs|
  {
    var id := s.sse.strs[k].id;
    || (a == Loop(GetEnd(id)) && InFlight(s, k) == [])
    || (a.Sse? && a.se.DropStream? && a.se.k < |s.sse.strs| && s.sse.strs[a.se.k].id == id
        && s.sse.strs[a.se.k].phase == Ended(OpenError))
    || (a.Sse? && a.se.Cut? && a.se.k < |s.sse.strs| && s.sse.strs[a.se.k].id == id
        && (s.sse.strs[a.se.k].phase.Cutting? || s.sse.strs[a.se.k].phase == Ended(ClientGone)))
    || (a == Sse(Open(id)) && exists t :: 0 <= t < |s.sse.strs| && t != k && s.sse.strs[t].id == id)
  }

  lemma RemovalBySse(s: State, e: SseEvent, k: nat)
    requires Step(s, Sse(e)).Some? && k < |s.sse.strs| && Mapped(s, k)
    requires k < |Step(s, Sse(e)).value.sse.strs| && !Mapped(Step(s, Sse(e)).value, k)
    ensures RemovedBy(Step(s, Sse(e)).value, Sse(e), k)
  {
    match e
    case Open(id) => assert Step(s, Sse(e)).value.sse.strs[|s.sse.strs|].id == s.sse.strs[k].id;
    case _ =>
  }

  lemma RemovalByLoop(s: State, e: LoopEvent, k: nat)
    requires Step(s, Loop(e)).Some? && k < |s.sse.strs| && Mapped(s, k)
    requires k < |Step(s, Loop(e)).value.sse.strs| && !Mapped(Step(s, Loop(e)).value, k)
    ensures RemovedBy(Step(s, Loop(e)).value, Loop(e), k)
  {
  }

  lemma Removal(s: State, a: Action, k: nat)
    requires Step(s, a).Some? && k < |s.sse.strs| && Mapped(s, k)
    requires k < |Step(s, a).value.sse.strs| && !Mapped(Step(s, a).value, k)
    ensures RemovedBy(Step(s, a).value, a, k)
  {
    match a
    case Http(e) =>
    case Loop(e) => RemovalByLoop(s, e, k);
    case Sse(e) => RemovalBySse(s, e, k);
    case CloseOther =>
  }

  lemma HandlersAdvance(s: State, a: Action, t: nat)
    requires Step(s, a).Some? && t < |s.sse.strs|
    ensures t < |Step(s, a).value.sse.strs|
    ensures var phase, phase' := s.sse.strs[t].phase, Step(s, a).value.sse.strs[t].phase;
            && (phase == Ended(OpenError) ==> phase' == phase)
            && (phase.Cutting? || phase == Ended(ClientGone) ==> phase'.Cutting? || phase' == Ended(ClientGone))
  {
    StreamsOnlyGrow(s, a);
  }

  lemma StaysRemoved(s: State, a: Action, k: nat, cause: Action)
    requires Inv(s) && Step(s, a).Some? && k < |s.sse.strs| && !Mapped(s, k) && RemovedBy(s, cause, k)
    ensures k < |Step(s, a).value.sse.strs| && RemovedBy(Step(s, a).value, cause, k)
    ensures ArrivedNow(s, a, k) == []
  {
    var s' := Step(s, a).value;
    StreamsOnlyGrow(s, a);
    StepMoves(s, a, k);
    if cause.Sse? && (cause.se.DropStream? || cause.se.Cut?) {
      HandlersAdvance(s, a, cause.se.k);
    }
    if cause.Sse? && cause.se.Open? {
      var t :| 0 <= t < |s.sse.strs| && t != k && s.sse.strs[t].id == s.sse.strs[k].id;
      assert s'.sse.strs[t].id == s'.sse.strs[k].id;
    }
  }

  lemma WireSnoc(run: seq<Action>, a: Action, id: string)
    ensures Wire(run + [a], id) ==
            Wire(run, id) + (if a.Loop? && a.le.GetFrame? && a.le.frame.id == id then [a.le.frame] else [])
  {
    assert (run + [a])[..|run|] == run;
  }

  lemma ArrivesIfMapped(s: State, a: Action, k: nat)
    requires Inv(s) && Step(s, a).Some? && k < |s.sse.strs|
    requires Mapped(s, k)
    ensures a.Loop? && a.le.GetFrame? && a.le.frame.id == s.sse.strs[k].id ==> ArrivedNow(s, a, k) == [a.le.frame]
    ensures !(a.Loop? && a.le.GetFrame? && a.le.frame.id == s.sse.strs[k].id) ==> ArrivedNow(s, a, k) == []
    ensures k < |Step(s, a).value.sse.strs| && (a.Loop? && a.le.GetFrame? ==> Mapped(Step(s, a).value, k))
  {
    StreamsOnlyGrow(s, a);
  }

  ghost predicate WindowFits(run: seq<Action>, k: nat)
    requires Run(run).Some? && k < |Run(run).value.sse.strs|
  {
    var s, q := Run(run).value, RemovedAt(run, k);
    && Arrived(run, k) == Wire(run[OpenedAt(run, k)+1..q], s.sse.strs[k].id)
    && (q < |run| ==> RemovedBy(s, run[q], k))
  }

  /** The wire between two positions of a run grows by the last action only. */
  lemma WindowGrows(before: seq<Action>, a: Action, p: nat, id: string)
    requires p < |before|
    ensures Wire((before + [a])[p+1..|before|+1], id) ==
            Wire(before[p+1..], id) + (if a.Loop? && a.le.GetFrame? && a.le.frame.id == id then [a.le.frame] else [])
  {
    WireSnoc(before[p+1..], a, id);
    assert (before + [a])[p+1..|before|+1] == before[p+1..] + [a];
  }

  lemma RemovedAtSnoc(before: seq<Action>, a: Action, k: nat)
    requires Run(before).Some? && Step(Run(before).value, a).Some? && k < |Run(before).value.sse.strs|
    ensures Run(before + [a]) == Step(Run(before).value, a)
    ensures k < |Run(before + [a]).value.sse.strs|
    ensures OpenedAt(before + [a], k) == OpenedAt(before, k)
    ensures Arrived(before + [a], k) == Arrived(before, k) + ArrivedNow(Run(before).value, a, k)
    ensures RemovedAt(before + [a], k) ==
            if RemovedAt(before, k) < |before| then RemovedAt(before, k)
            else if Mapped(Run(before + [a]).value, k) then |before| + 1
            else |before|
  {
    assert (before + [a])[..|before|] == before;
    StreamsOnlyGrow(Run(before).value, a);
  }

  lemma ClosedWindowStep(before: seq<Action>, a: Action, k: nat)
    requires Run(before).Some? && Step(Run(before).value, a).Some? && k < |Run(before).value.sse.strs|
    requires Inv(Run(before).value) && WindowFits(before, k) && RemovedAt(before, k) < |before|
    ensures Run(before + [a]).Some? && k < |Run(before + [a]).value.sse.strs| && WindowFits(before + [a], k)
  {
    hide Step, Run, Inv, OpenedAt, RemovedAt, Arrived, Wire, RemovedBy;
    var s, p, q := Run(before).value, OpenedAt(before, k), RemovedAt(before, k);
    RemovedAtSnoc(before, a, k);
    StaysRemoved(s, a, k, before[q]);
    assert (before + [a])[p+1..q] == before[p+1..q];
  }

  lemma OpenWindowStep(before: seq<Action>, a: Action, k: nat)
    requires Run(before).Some? && Step(Run(before).value, a).Some? && k < |Run(before).value.sse.strs|
    requires Inv(Run(before).value) && WindowFits(before, k) && RemovedAt(before, k) == |before|
    ensures Run(before + [a]).Some? && k < |Run(before + [a]).value.sse.strs| && WindowFits(before + [a], k)
  {
    hide Step, Run, Inv, OpenedAt, RemovedAt, Arrived, Wire, RemovedBy, ArrivedNow;
    var s, run, p := Run(before).value, before + [a], OpenedAt(before, k);
    RemovedAtSnoc(before, a, k);
    ArrivesIfMapped(s, a, k);
    WindowGrows(before, a, p, s.sse.strs[k].id);
    assert before[p+1..|before|] == before[p+1..];
    if !Mapped(Run(run).value, k) {
      Removal(s, a, k);
      assert run[p+1..|before|] == before[p+1..];
    }
    assert Run(run).value.sse.strs[k].id == s.sse.strs[k].id by {
      StreamsOnlyGrow(s, a);
    }
  }

  /** What arrives for a stream is exactly what was on the wire with its id from the moment its
      entry was made until the entry was removed, and the removal has one of four causes. */
  lemma {:induction false} ArrivalsAreTheWindow(run: seq<Action>, k: nat)
    requires Run(run).Some? && k < |Run(run).value.sse.strs|
    ensures WindowFits(run, k)
  {
    hide Step;
    var before, a := run[..|run|-1], run[|run|-1];
    StreamsOnlyGrow(Run(before).value, a);
    RunKeeps(before);
    if k < |Run(before).value.sse.strs| {
      ArrivalsAreTheWindow(before, k);
      assert run == before + [a];
      if RemovedAt(before, k) < |before| {
        ClosedWindowStep(before, a, k);
      } else {
        OpenWindowStep(before, a, k);
      }
    } else {
      AllAccounted(before, k);
      NothingYet(Run(before).value, a, k);
      assert run[OpenedAt(run, k)+1..|run|] == [];
    }
  }

  predicate DistinctStreams(s: State) {
    forall i, j :: 0 <= i < j < |s.sse.strs| ==> s.sse.strs[i].id != s.sse.strs[j].id
  }

  lemma EndedByTheShore(s: State, cause: Action, k: nat)
    requires Inv(s) && DistinctStreams(s) && k < |s.sse.strs| && s.sse.strs[k].phase == Ended(StreamEnded)
    ensures !Mapped(s, k) && s.sse.strs[k].ch.buf == []
    ensures RemovedBy(s, cause, k) ==> cause == Loop(GetEnd(s.sse.strs[k].id)) && InFlight(s, k) == []
  {
    assert Sound(s.sse.strs[k], s.done);
  }

  /** A handler that leaves through the `!ok` arm, on a stream that never overflowed, has written
      exactly the frames that were on the wire between the making of its table entry and the
      stream_end that closed it. */
  lemma {:induction false} NormalEndShowsEverything(run: seq<Action>, k: nat)
    requires Run(run).Some? && k < |Run(run).value.sse.strs|
    requires DistinctStreams(Run(run).value)
    requires Run(run).value.sse.strs[k].phase == Ended(StreamEnded)
    requires Lost(Log(run, k)) == []
    ensures var r, p, q := Run(run).value.sse.strs[k], OpenedAt(run, k), RemovedAt(run, k);
            && p < q < |run|
            && run[p] == Sse(Open(r.id))
            && run[q] == Loop(GetEnd(r.id))
            && r.out == Wire(run[p+1..q], r.id)
  {
    hide Step, Run, Inv, Wire, Arrived, Log, Kept, Lost, Panicked, OpenedAt, RemovedAt, CloseCount, RemovedBy, DistinctStreams;
    var s := Run(run).value;
    RunKeeps(run);
    ArrivalsAreTheWindow(run, k);
    EndedByTheShore(s, run[if RemovedAt(run, k) < |run| then RemovedAt(run, k) else 0], k);
    AllAccounted(run, k);
    PanicsHaveACause(run, k);
    if Panicked(Log(run, k)) != [] {
      NormalEndNeedsNoPanic(s, k);
    }
    AllKept(Log(run, k));
    assert s.sse.strs[k].out + [] == s.sse.strs[k].out;
  }

  /** With distinct ids a panic leaves its stream without a normal end. */
  lemma NormalEndNeedsNoPanic(s: State, k: nat)
    requires DistinctStreams(s) && k < |s.sse.strs| && Abandoned(s, k)
    ensures s.sse.strs[k].phase != Ended(StreamEnded)
  {
    var t :| 0 <= t < |s.sse.strs| && s.sse.strs[t].id == s.sse.strs[k].id && s.sse.strs[t].phase == Ended(ClientGone);
    assert t == k;
  }

  lemma {:induction false} AllKept(log: seq<Settled>)
    requires Lost(log) == [] && Panicked(log) == []
    ensures Kept(log) == Frames(log)
  {
    if log != [] {
      AllKept(log[..|log|-1]);
      assert Frames(log) == Frames(log[..|log|-1]) + [log[|log|-1].frame];
    }
  }
}
