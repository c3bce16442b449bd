/**
 What the end of a connection looks like in the gateway as a whole: a panic of a read loop is contained
 in its connection; the deferred cleanup always goes through; `done` stays closed; and every handler
 still on a closed connection, whichever goroutine closed it, can finish by its own steps alone.
 */
module Teardown {
  import opened Wrappers
  import opened Dock
  import T = Tunnel
  import Streams
  import ClosedSends

  // ---------------------------------------------------------------- handlers on a closed connection

  /** What request handler `h` still has to do on a closed connection; `written` is the outcome of the
      write it is in, if it is in one. */
  function FinishRequest(phase: T.RequestPhase, h: nat, written: bool): seq<T.HttpEvent> {
    match phase
    case Writing => if written then [T.Written(h), T.SeeDone(h)] else [T.WriteFails(h), T.Drop(h)]
    case WriteFailed => [T.Drop(h)]
    case Waiting => [T.SeeDone(h)]
    case TimedOut => [T.Cancel(h)]
    case Left(_) => []
  }

  /** What stream handler `k` still has to do on a closed connection. */
  function FinishStream(s: T.State, k: nat, written: bool): seq<T.SseEvent>
    requires k < |s.sse.strs|
  {
    match s.sse.strs[k].phase
    case Opening => if written then [T.Opened(k), T.SeeGone(k)] else [T.OpenFails(k), T.DropStream(k)]
    case OpenFailed => [T.DropStream(k)]
    case Relaying => [T.SeeGone(k)]
    case Disconnected =>
      if s.sse.strs[k].id in s.sse.streams then [T.Cut(k), T.CloseCut(k)] else [T.Cut(k)]
    case Cutting(_) => [T.CloseCut(k)]
    case Ended(_) => []
  }

  function HttpActions(events: seq<T.HttpEvent>): seq<T.Action> {
    seq(|events|, i requires 0 <= i < |events| => T.Http(events[i]))
  }

  function SseActions(events: seq<T.SseEvent>): seq<T.Action> {
    seq(|events|, i requires 0 <= i < |events| => T.Sse(events[i]))
  }

  predicate RequestOver(o: Option<T.State>, h: nat) {
    o.Some? && h < |o.value.http.reqs| && o.value.http.reqs[h].phase.Left?
  }

  predicate StreamOver(o: Option<T.State>, k: nat) {
    o.Some? && k < |o.value.sse.strs| && o.value.sse.strs[k].phase.Ended?
  }

  /** Open to handlers, and closed. */
  predicate Shut(s: T.State) {
    s.done && !s.loop.Starting?
  }

  lemma WaiterSeesDone(s: T.State, h: nat)
    requires Shut(s) && h < |s.http.reqs| && s.http.reqs[h].phase.Waiting?
    ensures RequestOver(T.Step(s, T.Http(T.SeeDone(h))), h)
  {
  }

  lemma WriterFinishes(s: T.State, h: nat)
    requires Shut(s) && h < |s.http.reqs| && s.http.reqs[h].phase.Writing?
    ensures RequestOver(T.Play(s, [T.Http(T.Written(h)), T.Http(T.SeeDone(h))]), h)
  {
    hide T.Play, RequestOver;
    var next := s.(http := s.http.(reqs := s.http.reqs[h := s.http.reqs[h].(phase := T.Waiting)]));
    WaiterSeesDone(next, h);
    T.PlayTwo(s, T.Http(T.Written(h)), next, T.Http(T.SeeDone(h)));
  }

  lemma WriterFails(s: T.State, h: nat)
    requires Shut(s) && h < |s.http.reqs| && s.http.reqs[h].phase.Writing?
    ensures RequestOver(T.Play(s, [T.Http(T.WriteFails(h)), T.Http(T.Drop(h))]), h)
  {
    hide T.Play;
    var next := s.(http := s.http.(reqs := s.http.reqs[h := s.http.reqs[h].(phase := T.WriteFailed)]));
    T.PlayTwo(s, T.Http(T.WriteFails(h)), next, T.Http(T.Drop(h)));
  }

  lemma RequestFinishes(s: T.State, h: nat, written: bool)
    requires Shut(s) && h < |s.http.reqs|
    ensures RequestOver(T.Play(s, HttpActions(FinishRequest(s.http.reqs[h].phase, h, written))), h)
  {
    hide T.Play;
    var acts := HttpActions(FinishRequest(s.http.reqs[h].phase, h, written));
    match s.http.reqs[h].phase
    case Writing =>
      if written {
        assert acts == [T.Http(T.Written(h)), T.Http(T.SeeDone(h))];
        WriterFinishes(s, h);
      } else {
        assert acts == [T.Http(T.WriteFails(h)), T.Http(T.Drop(h))];
        WriterFails(s, h);
      }
    case WriteFailed =>
      assert acts == [T.Http(T.Drop(h))];
      T.PlayOne(s, acts[0]);
    case Waiting =>
      assert acts == [T.Http(T.SeeDone(h))];
      T.PlayOne(s, acts[0]);
      WaiterSeesDone(s, h);
    case TimedOut =>
      assert acts == [T.Http(T.Cancel(h))];
      T.PlayOne(s, acts[0]);
    case Left(_) =>
      assert acts == [];
      T.PlayNothing(s);
  }

  lemma RelaySeesGone(s: T.State, k: nat)
    requires Shut(s) && k < |s.sse.strs| && s.sse.strs[k].phase.Relaying?
    ensures StreamOver(T.Step(s, T.Sse(T.SeeGone(k))), k)
  {
  }

  lemma OpenerFinishes(s: T.State, k: nat)
    requires Shut(s) && k < |s.sse.strs| && s.sse.strs[k].phase.Opening?
    ensures StreamOver(T.Play(s, [T.Sse(T.Opened(k)), T.Sse(T.SeeGone(k))]), k)
  {
    hide T.Play, StreamOver;
    var next := s.(sse := T.SetPhase(s.sse, k, T.Relaying));
    RelaySeesGone(next, k);
    T.PlayTwo(s, T.Sse(T.Opened(k)), next, T.Sse(T.SeeGone(k)));
  }

  lemma OpenerFails(s: T.State, k: nat)
    requires Shut(s) && k < |s.sse.strs| && s.sse.strs[k].phase.Opening?
    ensures StreamOver(T.Play(s, [T.Sse(T.OpenFails(k)), T.Sse(T.DropStream(k))]), k)
  {
    hide T.Play;
    var next := s.(sse := T.SetPhase(s.sse, k, T.OpenFailed));
    T.PlayTwo(s, T.Sse(T.OpenFails(k)), next, T.Sse(T.DropStream(k)));
  }

  lemma ClosingEnds(s: T.State, k: nat)
    requires Shut(s) && k < |s.sse.strs| && s.sse.strs[k].phase.Cutting?
    requires s.sse.strs[k].phase.target < |s.sse.strs| && !s.sse.strs[s.sse.strs[k].phase.target].ch.closed
    ensures StreamOver(T.Step(s, T.Sse(T.CloseCut(k))), k)
  {
  }

  lemma CutterFinishes(s: T.State, k: nat)
    requires Shut(s) && k < |s.sse.strs| && s.sse.strs[k].phase.Disconnected?
    requires s.sse.strs[k].id in s.sse.streams && Streams.EntrySound(s, s.sse.strs[k].id)
    ensures StreamOver(T.Play(s, [T.Sse(T.Cut(k)), T.Sse(T.CloseCut(k))]), k)
  {
    hide T.Play, StreamOver;
    var id := s.sse.strs[k].id;
    var next := s.(sse := T.SetPhase(s.sse, k, T.Cutting(s.sse.streams[id])).(streams := s.sse.streams - {id}));
    ClosingEnds(next, k);
    T.PlayTwo(s, T.Sse(T.Cut(k)), next, T.Sse(T.CloseCut(k)));
  }

  lemma StreamFinishes(s: T.State, k: nat, written: bool)
    requires Shut(s) && k < |s.sse.strs|
    requires s.sse.strs[k].id in s.sse.streams ==> Streams.EntrySound(s, s.sse.strs[k].id)
    requires s.sse.strs[k].phase.Cutting? ==> Streams.CutterSound(s, k)
    ensures StreamOver(T.Play(s, SseActions(FinishStream(s, k, written))), k)
  {
    hide T.Play;
    var acts := SseActions(FinishStream(s, k, written));
    match s.sse.strs[k].phase
    case Opening =>
      if written {
        assert acts == [T.Sse(T.Opened(k)), T.Sse(T.SeeGone(k))];
        OpenerFinishes(s, k);
      } else {
        assert acts == [T.Sse(T.OpenFails(k)), T.Sse(T.DropStream(k))];
        OpenerFails(s, k);
      }
    case OpenFailed =>
      assert acts == [T.Sse(T.DropStream(k))];
      T.PlayOne(s, acts[0]);
    case Relaying =>
      assert acts == [T.Sse(T.SeeGone(k))];
      T.PlayOne(s, acts[0]);
      RelaySeesGone(s, k);
    case Disconnected =>
      if s.sse.strs[k].id in s.sse.streams {
        assert acts == [T.Sse(T.Cut(k)), T.Sse(T.CloseCut(k))];
        CutterFinishes(s, k);
      } else {
        assert acts == [T.Sse(T.Cut(k))];
        T.PlayOne(s, acts[0]);
      }
    case Cutting(_) =>
      assert acts == [T.Sse(T.CloseCut(k))];
      T.PlayOne(s, acts[0]);
      ClosingEnds(s, k);
    case Ended(_) =>
      assert acts == [];
      T.PlayNothing(s);
  }

  /** Once closed, a connection stays closed, whoever of its own handler, a replacing Register and the
      reaper comes to close it again. */
  lemma {:induction false} ClosedForGood(run: seq<Action>, n: nat, last: nat, c: nat)
    requires Run(run).Some? && n <= last <= |run| && c < |At(run, n).conns| && At(run, n).conns[c].tunnel.done
    ensures c < |At(run, last).conns| && At(run, last).conns[c].tunnel.done
    decreases last - n
  {
    hide Step, At, Run, Inv;
    if n < last {
      AtStep(run, n);
      StepMovesConn(At(run, n), run[n], c);
      ClosedForGood(run, n + 1, last, c);
    }
  }

  // ---------------------------------------------------------------- the deferred cleanup

  /** What the deferred function of connection `c` still has to do. */
  function Cleanup(loop: T.Loop, c: nat): seq<Action> {
    match loop
    case Exiting => [Leave(c), Inner(c, T.Loop(T.CloseOwn))]
    case Unregistered => [Inner(c, T.Loop(T.CloseOwn))]
    case _ => []
  }

  /** The gateway after that: the name is gone from the registry and this one connection is closed. */
  function Cleaned(d: State, c: nat): State
    requires c < |d.conns|
  {
    var conn := d.conns[c];
    d.(shores := if conn.tunnel.loop.Exiting? then d.shores - {conn.name} else d.shores,
       conns := d.conns[c := conn.(tunnel := conn.tunnel.(loop := T.Stopped, done := true))])
  }

  lemma Leaves(d: State, c: nat)
    requires c < |d.conns| && d.conns[c].tunnel.loop.Exiting?
    ensures Step(d, Leave(c)) == Some(d.(shores := d.shores - {d.conns[c].name},
                                         conns := d.conns[c := d.conns[c].(tunnel := d.conns[c].tunnel.(loop := T.Unregistered))]))
  {
  }

  lemma ClosesOwn(d: State, c: nat)
    requires c < |d.conns| && d.conns[c].tunnel.loop.Unregistered?
    ensures Step(d, Inner(c, T.Loop(T.CloseOwn))) == Some(Cleaned(d, c))
  {
  }

  lemma AlreadyClean(d: State, c: nat)
    requires Inv(d) && c < |d.conns| && d.conns[c].tunnel.loop.Stopped?
    ensures Cleaned(d, c) == d
  {
    assert ConnSound(d.conns[c].tunnel);
    assert Cleaned(d, c).conns == d.conns;
  }

  /** Once a read loop is over, whether it returned or panicked, its deferred function can run to its
      end from any state: it removes the name and closes this connection, and nothing else changes. */
  lemma {:induction false} CleanupGoesThrough(run: seq<Action>, c: nat)
    requires Run(run).Some? && c < |Run(run).value.conns| && T.LoopIsOver(Run(run).value.conns[c].tunnel)
    ensures Run(run + Cleanup(Run(run).value.conns[c].tunnel.loop, c)) == Some(Cleaned(Run(run).value, c))
  {
    hide Step, Run, Inv;
    var d := Run(run).value;
    RunKeeps(run);
    match d.conns[c].tunnel.loop
    case Exiting =>
      Leaves(d, c);
      var between := Step(d, Leave(c)).value;
      RunSnoc(run, Leave(c));
      ClosesOwn(between, c);
      RunSnoc(run + [Leave(c)], Inner(c, T.Loop(T.CloseOwn)));
      assert run + [Leave(c)] + [Inner(c, T.Loop(T.CloseOwn))] == run + Cleanup(d.conns[c].tunnel.loop, c);
      assert Cleaned(between, c) == Cleaned(d, c);
    case Unregistered =>
      ClosesOwn(d, c);
      RunSnoc(run, Inner(c, T.Loop(T.CloseOwn)));
    case Stopped =>
      AlreadyClean(d, c);
      assert run + [] == run;
  }

  // ---------------------------------------------------------------- nobody is left waiting

  /** Every handler on the connection ends by at most two steps of its own, none of which panics. */
  ghost predicate AllFinish(s: T.State, written: bool) {
    && (forall h :: 0 <= h < |s.http.reqs| ==>
          RequestOver(T.Play(s, HttpActions(FinishRequest(s.http.reqs[h].phase, h, written))), h))
    && (forall k :: 0 <= k < |s.sse.strs| ==> StreamOver(T.Play(s, SseActions(FinishStream(s, k, written))), k))
  }

  lemma ClosedFinishes(s: T.State, written: bool)
    requires Shut(s) && Streams.Inv(s)
    ensures AllFinish(s, written)
  {
    hide T.Play, RequestOver, StreamOver, FinishRequest, FinishStream, HttpActions, SseActions;
    forall h | 0 <= h < |s.http.reqs|
      ensures RequestOver(T.Play(s, HttpActions(FinishRequest(s.http.reqs[h].phase, h, written))), h)
    {
      RequestFinishes(s, h, written);
    }
    forall k | 0 <= k < |s.sse.strs| ensures StreamOver(T.Play(s, SseActions(FinishStream(s, k, written))), k) {
      StreamFinishes(s, k, written);
    }
  }

  lemma DoneFinishes(run: seq<Action>, c: nat, written: bool)
    requires Run(run).Some? && c < |Run(run).value.conns| && Run(run).value.conns[c].tunnel.done
    ensures AllFinish(Run(run).value.conns[c].tunnel, written)
  {
    hide Step, Run, AllFinish, Streams.Inv;
    RunKeeps(run);
    EveryConnectionIsATunnel(run, c);
    Streams.RunKeeps(Projection(run, c));
    assert ConnSound(Run(run).value.conns[c].tunnel);
    ClosedFinishes(Run(run).value.conns[c].tunnel, written);
  }

  /** No stranded waiter.  In every run, on every closed connection, each request and stream handler,
      waiting in its select or anywhere else, finishes by its own steps alone, whatever the outcome of a
      write it is in, without a panic and without help from the Shore.  And a read loop that is over,
      whether it returned or panicked, brings its connection there by finishing its deferred cleanup. */
  lemma {:induction false} NoStrandedWaiter(run: seq<Action>, c: nat, written: bool)
    requires Run(run).Some? && c < |Run(run).value.conns|
    ensures var d := Run(run).value;
            var s := d.conns[c].tunnel;
            && (s.done ==> AllFinish(s, written))
            && (s.loop == T.Stopped ==> s.done)
            && (T.LoopIsOver(s) ==>
                  && Run(run + Cleanup(s.loop, c)) == Some(Cleaned(d, c))
                  && AllFinish(Cleaned(d, c).conns[c].tunnel, written))
  {
    hide Step, Run, AllFinish;
    var s := Run(run).value.conns[c].tunnel;
    if s.done {
      DoneFinishes(run, c, written);
    }
    if T.LoopIsOver(s) {
      CleanupGoesThrough(run, c);
      DoneFinishes(run + Cleanup(s.loop, c), c, written);
    }
    RunKeeps(run);
    assert ConnSound(s);
  }

  // ---------------------------------------------------------------- panics

  /** The action at `p` panics in a goroutine of connection `c`. */
  ghost predicate PanicsAt(run: seq<Action>, p: nat, c: nat)
    requires Run(run).Some? && p < |run| && c < |At(run, p).conns|
  {
    var now := Projected(At(run, p), run[p], c);
    now != [] && T.Panics(At(run, p).conns[c].tunnel, now[0])
  }

  lemma {:induction false} ProjectionPrefix(run: seq<Action>, p: nat, c: nat)
    requires Run(run).Some? && p <= |run|
    ensures Run(run[..p]).Some? && Projection(run[..p], c) <= Projection(run, c)
    decreases |run|
  {
    hide Step;
    RunPrefix(run, p);
    if p < |run| {
      ProjectionPrefix(run[..|run|-1], p, c);
      assert run[..|run|-1][..p] == run[..p];
    } else {
      assert run[..p] == run;
    }
  }

  /** Where in the run of connection `c` an action of the gateway is. */
  lemma ProjectionAt(run: seq<Action>, p: nat, c: nat)
    requires Run(run).Some? && p < |run| && c < |At(run, p).conns|
    requires Projected(At(run, p), run[p], c) != []
    ensures Run(run[..p]).Some? && T.Run(Projection(run, c)).Some?
    ensures var q := |Projection(run[..p], c)|;
            && q < |Projection(run, c)|
            && Projection(run, c)[q] == Projected(At(run, p), run[p], c)[0]
            && ClosedSends.At(Projection(run, c), q) == At(run, p).conns[c].tunnel
  {
    hide Step, T.Step, T.Run, Inv;
    RunPrefix(run, p);
    RunPrefix(run, p + 1);
    ProjectionPrefix(run, p, c);
    ProjectionPrefix(run, p + 1, c);
    EveryConnectionIsATunnel(run, c);
    EveryConnectionIsATunnel(run[..p], c);
    assert run[..p+1][..p] == run[..p] && run[..p+1][p] == run[p];
    var before, all := Projection(run[..p], c), Projection(run, c);
    assert Projection(run[..p+1], c) == before + Projected(At(run, p), run[p], c);
    assert all[..|before|] == before;
    TunnelExists(run, c, p);
  }

  lemma TunnelExists(run: seq<Action>, c: nat, p: nat)
    requires Run(run).Some? && p <= |run| && c < |At(run, p).conns|
    ensures T.Run(Projection(run, c)).Some?
  {
    hide Step, T.Step, T.Run, Inv;
    StillThere(run, p, |run|, c);
    assert run[..|run|] == run;
    EveryConnectionIsATunnel(run, c);
  }

  lemma {:induction false} StillThere(run: seq<Action>, n: nat, last: nat, c: nat)
    requires Run(run).Some? && n <= last <= |run| && c < |At(run, n).conns|
    ensures c < |At(run, last).conns|
    decreases last - n
  {
    hide Step, At, Run, Inv;
    if n < last {
      AtStep(run, n);
      StepMovesShores(At(run, n), run[n]);
      StillThere(run, n + 1, last, c);
    }
  }

  /** In any run of the gateway an action panics if and only if it is a send of a frame whose stream a
      handler, leaving because its client did, has cut off and closed since DeliverFrame found it.  The
      panic sends the read loop of that one connection to its deferred cleanup; the registry, the clock
      and all other connections are as they were. */
  lemma {:induction false} PanicsExactlyOnOverlap(run: seq<Action>, p: nat, c: nat)
    requires Run(run).Some? && p < |run| && c < |At(run, p).conns|
    ensures Run(run[..p]).Some? && T.Run(Projection(run, c)).Some?
    ensures PanicsAt(run, p, c) <==>
              && run[p] == Inner(c, T.Loop(T.PutFrame))
              && exists i: nat, m: nat, j: nat, t: nat ::
                   ClosedSends.FrameRace(Projection(run, c), |Projection(run[..p], c)|, i, m, j, t)
    ensures PanicsAt(run, p, c) ==>
              var d := At(run, p);
              At(run, p + 1) == d.(conns := d.conns[c := d.conns[c].(tunnel := d.conns[c].tunnel.(loop := T.Exiting))])
  {
    hide Step, T.Step, T.Run, Run, Inv, At, Projection, T.Panics, ClosedSends.At;
    TunnelExists(run, c, p);
    RunPrefix(run, p);
    var now, all, q := Projected(At(run, p), run[p], c), Projection(run, c), |Projection(run[..p], c)|;
    if now != [] {
      ProjectionAt(run, p, c);
      ClosedSends.PanicsExactlyOnOverlap(all, q);
      if PanicsAt(run, p, c) {
        var i: nat, m: nat, j: nat, t: nat :| ClosedSends.FrameRace(all, q, i, m, j, t);
        ActsAlone(At(run, p), run[p], c);
        AtStep(run, p);
        PanickedStep(At(run, p), c);
      }
    }
  }

  /** Only connection `c` itself sends its frames. */
  lemma ActsAlone(d: State, a: Action, c: nat)
    requires Projected(d, a, c) == [T.Loop(T.PutFrame)]
    ensures a == Inner(c, T.Loop(T.PutFrame))
  {
  }

  lemma PanickedStep(d: State, c: nat)
    requires c < |d.conns| && T.Panics(d.conns[c].tunnel, T.Loop(T.PutFrame))
    ensures Step(d, Inner(c, T.Loop(T.PutFrame)))
         == Some(d.(conns := d.conns[c := d.conns[c].(tunnel := d.conns[c].tunnel.(loop := T.Exiting))]))
  {
  }

  lemma {:induction false} OverForGood(run: seq<Action>, n: nat, last: nat, c: nat)
    requires Run(run).Some? && n <= last <= |run| && c < |At(run, n).conns| && T.LoopIsOver(At(run, n).conns[c].tunnel)
    ensures c < |At(run, last).conns| && T.LoopIsOver(At(run, last).conns[c].tunnel)
    decreases last - n
  {
    hide Step, T.Step, At, Run, Inv, T.LoopIsOver;
    if n < last {
      var d := At(run, n);
      AtStep(run, n);
      StepMovesConn(d, run[n], c);
      if Projected(d, run[n], c) != [] {
        ClosedSends.OverStays(d.conns[c].tunnel, Projected(d, run[n], c)[0]);
      }
      OverForGood(run, n + 1, last, c);
    }
  }

  /** A panic is contained.  Whatever the gateway does after it, the read loop of that connection stays
      over, and finishing its deferred cleanup removes the name, closes exactly this connection and lets
      every handler on it finish. */
  lemma {:induction false} PanicIsContained(run: seq<Action>, p: nat, c: nat, written: bool)
    requires Run(run).Some? && p < |run| && c < |At(run, p).conns| && PanicsAt(run, p, c)
    ensures c < |Run(run).value.conns|
    ensures var d := Run(run).value;
            && T.LoopIsOver(d.conns[c].tunnel)
            && Run(run + Cleanup(d.conns[c].tunnel.loop, c)) == Some(Cleaned(d, c))
            && AllFinish(Cleaned(d, c).conns[c].tunnel, written)
  {
    hide Step, Run, Inv, At, PanicsAt, AllFinish;
    PanicsExactlyOnOverlap(run, p, c);
    OverForGood(run, p + 1, |run|, c);
    LastAt(run);
    NoStrandedWaiter(run, c, written);
  }

  lemma LastAt(run: seq<Action>)
    requires Run(run).Some?
    ensures At(run, |run|) == Run(run).value
  {
    assert run[..|run|] == run;
  }
}
