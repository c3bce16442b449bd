/**
 What can always happen.  The other modules say what a step does if it is taken; here every goroutine is
 shown to have its next step: which arms of a select are ready, and that the read loop never blocks.
 So what the Shore sends gets through to the browser.
 */
module Progress {
  import opened Wrappers
  import opened Tunnel
  import Requests
  import Streams
  import D = Dock

  function WithRequest(s: State, h: nat, q: Request): State
    requires h < |s.http.reqs|
  {
    s.(http := s.http.(reqs := s.http.reqs[h := q]))
  }

  function WithStream(s: State, k: nat, r: Stream): State
    requires k < |s.sse.strs|
  {
    s.(sse := s.sse.(strs := s.sse.strs[k := r]))
  }

  /** Handlers find a connection in the registry, hence not before it is registered. */
  lemma {:induction false} HandlersComeAfterRegister(run: seq<Action>)
    requires Run(run).Some?
    ensures Run(run).value.loop.Starting? ==> Run(run).value == INIT
  {
    hide Step;
    if run != [] {
      HandlersComeAfterRegister(run[..|run|-1]);
      LeavesStarting(Run(run[..|run|-1]).value, run[|run|-1]);
    }
  }

  lemma LeavesStarting(s: State, a: Action)
    requires Step(s, a).Some?
    ensures !Step(s, a).value.loop.Starting?
  {
  }

  // ---------------------------------------------------------------- the selects

  /** The select of `routeToShore`.  A response in the channel can be taken, whatever else is ready, and
      ends the request with exactly that response, which carries the request's id; the timer can fire at
      any moment; the `done` arm is ready exactly when the connection is closed; `!ok` never is. */
  lemma {:induction false} RequestArms(run: seq<Action>, h: nat)
    requires Run(run).Some? && h < |Run(run).value.http.reqs| && Run(run).value.http.reqs[h].phase == Waiting
    ensures var s := Run(run).value;
            var q := s.http.reqs[h];
            && (q.ch.buf == [] ==> Step(s, Http(Take(h))) == None)
            && (q.ch.buf != [] ==>
                  && q.ch.buf[0].id == q.id
                  && Step(s, Http(Take(h))) == Some(WithRequest(s, h, Request(q.id, Chan([], false), Left(Answered(q.ch.buf[0]))))))
            && Step(s, Http(Timer(h))) == Some(WithRequest(s, h, q.(phase := TimedOut)))
            && Step(s, Http(SeeDone(h))) == (if s.done then Some(WithRequest(s, h, q.(phase := Left(ShoreDone)))) else None)
            && Step(s, Http(TakeClosed(h))) == None
  {
    HandlersComeAfterRegister(run);
    Requests.RunKeeps(run);
    var q := Run(run).value.http.reqs[h];
    assert Requests.Sound(q, Run(run).value.done);
    assert q.ch.buf != [] ==> q.ch.buf[1..] == [];
  }

  /** The select of the relay loop.  A buffered frame can be written, whether or not the channel or the
      connection is closed, and the oldest goes first; `!ok` is ready exactly when the channel is closed and
      empty; the client can leave at any moment; `done` is ready exactly when the connection is closed. */
  lemma {:induction false} StreamArms(run: seq<Action>, k: nat)
    requires Run(run).Some? && k < |Run(run).value.sse.strs| && Run(run).value.sse.strs[k].phase == Relaying
    ensures var s := Run(run).value;
            var r := s.sse.strs[k];
            && (r.ch.buf == [] ==> Step(s, Sse(Relay(k))) == None)
            && (r.ch.buf != [] ==>
                  Step(s, Sse(Relay(k))) ==
                  Some(WithStream(s, k, Stream(r.id, Chan(r.ch.buf[1..], r.ch.closed), Relaying, r.out + [r.ch.buf[0]]))))
            && Step(s, Sse(SeeEnd(k))) ==
               (if r.ch.buf == [] && r.ch.closed then Some(WithStream(s, k, r.(phase := Ended(StreamEnded)))) else None)
            && Step(s, Sse(ClientLeaves(k))) == Some(WithStream(s, k, r.(phase := Disconnected)))
            && Step(s, Sse(SeeGone(k))) == (if s.done then Some(WithStream(s, k, r.(phase := Ended(ShoreGone)))) else None)
  {
    HandlersComeAfterRegister(run);
  }

  // ---------------------------------------------------------------- nobody else blocks

  /** A request handler outside its select can always go on, a write ending either way. */
  lemma {:induction false} RequestNeverStuck(run: seq<Action>, h: nat)
    requires Run(run).Some? && h < |Run(run).value.http.reqs|
    ensures var s := Run(run).value;
            var q := s.http.reqs[h];
            && (q.phase == Writing ==>
                  && Step(s, Http(Written(h))) == Some(WithRequest(s, h, q.(phase := Waiting)))
                  && Step(s, Http(WriteFails(h))) == Some(WithRequest(s, h, q.(phase := WriteFailed))))
            && (q.phase == WriteFailed ==>
                  Step(s, Http(Drop(h))) ==
                  Some(s.(http := HttpSide(s.http.pending - {q.id}, s.http.reqs[h := q.(phase := Left(SendError))]))))
            && (q.phase == TimedOut ==>
                  Step(s, Http(Cancel(h))) ==
                  Some(s.(http := HttpSide(s.http.pending - {q.id}, s.http.reqs[h := q.(phase := Left(Timeout))]))))
  {
    HandlersComeAfterRegister(run);
  }

  lemma CutIs(s: State, k: nat)
    requires !s.loop.Starting? && k < |s.sse.strs| && s.sse.strs[k].phase == Disconnected
    ensures var r := s.sse.strs[k];
            Step(s, Sse(Cut(k))) ==
            Some(s.(sse := SseSide(s.sse.streams - {r.id},
                                   s.sse.strs[k := r.(phase := if r.id in s.sse.streams then Cutting(s.sse.streams[r.id])
                                                               else Ended(ClientGone))])))
  {
    if s.sse.strs[k].id !in s.sse.streams {
      assert s.sse.streams - {s.sse.strs[k].id} == s.sse.streams;
    }
  }

  lemma CloseCutIs(s: State, k: nat)
    requires Streams.Inv(s) && !s.loop.Starting? && k < |s.sse.strs| && s.sse.strs[k].phase.Cutting?
    ensures var target := s.sse.strs[k].phase.target;
            && target < |s.sse.strs| && !s.sse.strs[target].ch.closed
            && Step(s, Sse(CloseCut(k))).Some?
            && var strs' := Step(s, Sse(CloseCut(k))).value.sse.strs;
            && |strs'| == |s.sse.strs|
            && strs'[target].ch == Chan(s.sse.strs[target].ch.buf, true)
            && strs'[k].phase == Ended(ClientGone)
  {
    assert Streams.CutterSound(s, k);
  }

  /** The same for a stream handler; one that cuts its stream off closes exactly the channel it deleted. */
  lemma {:induction false} StreamNeverStuck(run: seq<Action>, k: nat)
    requires Run(run).Some? && k < |Run(run).value.sse.strs|
    ensures var s := Run(run).value;
            var r := s.sse.strs[k];
            && (r.phase == Opening ==>
                  && Step(s, Sse(Opened(k))) == Some(WithStream(s, k, r.(phase := Relaying)))
                  && Step(s, Sse(OpenFails(k))) == Some(WithStream(s, k, r.(phase := OpenFailed))))
            && (r.phase == OpenFailed ==>
                  Step(s, Sse(DropStream(k))) ==
                  Some(s.(sse := SseSide(s.sse.streams - {r.id}, s.sse.strs[k := r.(phase := Ended(OpenError))]))))
            && (r.phase == Disconnected ==>
                  Step(s, Sse(Cut(k))) ==
                  Some(s.(sse := SseSide(s.sse.streams - {r.id},
                                         s.sse.strs[k := r.(phase := if r.id in s.sse.streams then Cutting(s.sse.streams[r.id])
                                                                     else Ended(ClientGone))]))))
            && (r.phase.Cutting? ==>
                  && r.phase.target < |s.sse.strs| && !s.sse.strs[r.phase.target].ch.closed
                  && Step(s, Sse(CloseCut(k))).Some?
                  && var strs' := Step(s, Sse(CloseCut(k))).value.sse.strs;
                  && |strs'| == |s.sse.strs|
                  && strs'[r.phase.target].ch == Chan(s.sse.strs[r.phase.target].ch.buf, true)
                  && strs'[k].phase == Ended(ClientGone))
  {
    hide Streams.Inv;
    HandlersComeAfterRegister(run);
    Streams.RunKeeps(run);
    var s := Run(run).value;
    match s.sse.strs[k].phase
    case Disconnected => CutIs(s, k);
    case Cutting(_) => CloseCutIs(s, k);
    case _ =>
  }

  /** The read loop never blocks: it can receive any message whenever it reads, and finish whatever it is
      delivering, whatever the handlers do in between; and new requests and streams can come at any time
      once the connection is registered. */
  lemma {:induction false} LoopNeverStuck(run: seq<Action>, resp: Response, frame: Frame, id: string, written: bool)
    requires Run(run).Some?
    ensures var s := Run(run).value;
            && (s.loop == Starting ==> Step(s, Loop(Register)) == Some(s.(loop := Reading)))
            && (s.loop == Reading ==>
                  && Step(s, Loop(GetResponse(resp))).Some?
                  && Step(s, Loop(GetFrame(frame))).Some?
                  && Step(s, Loop(GetEnd(id))).Some?
                  && Step(s, Loop(GetPing(written))) == Some(s.(loop := if written then Reading else Exiting))
                  && Step(s, Loop(GetOther)) == Some(s)
                  && Step(s, Loop(ReadFails)) == Some(s.(loop := Exiting)))
            && (s.loop.Answering? ==> Step(s, Loop(PutResponse)).Some?)
            && (s.loop.Framing? ==> Step(s, Loop(PutFrame)).Some?)
            && (s.loop.Ending? ==> Step(s, Loop(CloseEnded)).Some?)
            && (s.loop == Exiting ==> Step(s, Loop(Unregister)) == Some(s.(loop := Unregistered)))
            && (s.loop == Unregistered ==> Step(s, Loop(CloseOwn)) == Some(s.(loop := Stopped, done := true)))
            && (s.loop != Starting ==>
                  && Step(s, Http(Issue(id))).Some?
                  && Step(s, Sse(Open(id))).Some?
                  && Step(s, CloseOther) == Some(s.(done := true)))
  {
    Requests.RunKeeps(run);
    Streams.RunKeeps(run);
  }

  // ---------------------------------------------------------------- what is sent gets through

  function Relays(k: nat, n: nat): seq<Action> {
    seq(n, _ => Sse(Relay(k)))
  }

  lemma UpdatedTwice<T>(xs: seq<T>, k: nat, x: T, y: T)
    requires k < |xs|
    ensures xs[k := x][k := y] == xs[k := y]
  {
  }

  lemma {:induction false} Drained(s: State, k: nat)
    requires !s.loop.Starting? && k < |s.sse.strs| && s.sse.strs[k].phase == Relaying
    ensures var r := s.sse.strs[k];
            Play(s, Relays(k, |r.ch.buf|)) == Some(WithStream(s, k, Stream(r.id, Chan([], r.ch.closed), Relaying, r.out + r.ch.buf)))
    decreases |s.sse.strs[k].ch.buf|
  {
    var r := s.sse.strs[k];
    if r.ch.buf == [] {
      assert WithStream(s, k, r) == s;
      assert r.out + r.ch.buf == r.out;
    } else {
      var acts := Relays(k, |r.ch.buf|);
      assert acts[1..] == Relays(k, |r.ch.buf| - 1);
      var next := WithStream(s, k, Stream(r.id, Chan(r.ch.buf[1..], r.ch.closed), Relaying, r.out + [r.ch.buf[0]]));
      assert Step(s, acts[0]) == Some(next);
      Drained(next, k);
      UpdatedTwice(s.sse.strs, k, next.sse.strs[k], Stream(r.id, Chan([], r.ch.closed), Relaying, r.out + r.ch.buf));
      assert r.out + [r.ch.buf[0]] + r.ch.buf[1..] == r.out + r.ch.buf;
    }
  }

  lemma DrainedToTheEnd(s: State, k: nat)
    requires !s.loop.Starting? && k < |s.sse.strs| && s.sse.strs[k].phase == Relaying && s.sse.strs[k].ch.closed
    ensures var r := s.sse.strs[k];
            Play(s, Relays(k, |r.ch.buf|) + [Sse(SeeEnd(k))]) ==
            Some(WithStream(s, k, Stream(r.id, Chan([], true), Ended(StreamEnded), r.out + r.ch.buf)))
  {
    hide Play;
    var r := s.sse.strs[k];
    Drained(s, k);
    var drained := WithStream(s, k, Stream(r.id, Chan([], true), Relaying, r.out + r.ch.buf));
    PlayAppend(s, Relays(k, |r.ch.buf|), [Sse(SeeEnd(k))]);
    PlayOne(drained, Sse(SeeEnd(k)));
    UpdatedTwice(s.sse.strs, k, drained.sse.strs[k], drained.sse.strs[k].(phase := Ended(StreamEnded)));
  }

  /** At any point a handler in its relay loop can write out everything that is buffered, in order, and
      nothing else; if its channel is closed it then ends normally. */
  lemma {:induction false} BufferedFramesGetThrough(run: seq<Action>, k: nat)
    requires Run(run).Some? && k < |Run(run).value.sse.strs| && Run(run).value.sse.strs[k].phase == Relaying
    ensures var s := Run(run).value;
            var r := s.sse.strs[k];
            && Play(s, Relays(k, |r.ch.buf|)) ==
               Some(WithStream(s, k, Stream(r.id, Chan([], r.ch.closed), Relaying, r.out + r.ch.buf)))
            && (r.ch.closed ==>
                  Play(s, Relays(k, |r.ch.buf|) + [Sse(SeeEnd(k))]) ==
                  Some(WithStream(s, k, Stream(r.id, Chan([], true), Ended(StreamEnded), r.out + r.ch.buf))))
  {
    hide Step, Play;
    HandlersComeAfterRegister(run);
    Drained(Run(run).value, k);
    if Run(run).value.sse.strs[k].ch.closed {
      DrainedToTheEnd(Run(run).value, k);
    }
  }

  /** A response to a waiting request reaches its handler. */
  lemma {:induction false} ResponseGetsThrough(run: seq<Action>, h: nat, resp: Response)
    requires Run(run).Some? && h < |Run(run).value.http.reqs| && Run(run).value.loop == Reading
    requires Run(run).value.http.reqs[h].phase == Waiting && Requests.InTable(Run(run).value, h)
    requires resp.id == Run(run).value.http.reqs[h].id
    ensures var s := Run(run).value;
            Play(s, [Loop(GetResponse(resp)), Loop(PutResponse), Http(Take(h))]) ==
            Some(s.(http := HttpSide(s.http.pending - {resp.id},
                                     s.http.reqs[h := Request(resp.id, Chan([], false), Left(Answered(resp)))])))
  {
    hide Play;
    Requests.RunKeeps(run);
    var s := Run(run).value;
    assert Requests.EntrySound(s, resp.id) && Requests.Sound(s.http.reqs[h], s.done);
    var q := s.http.reqs[h];
    var found := s.(loop := Answering(h, resp), http := s.http.(pending := s.http.pending - {resp.id}));
    var sent := WithRequest(s.(http := found.http), h, q.(ch := Chan([resp], false)));
    assert [] + [resp] == [resp] && [resp][1..] == [];
    PlayThree(s, Loop(GetResponse(resp)), found, Loop(PutResponse), sent, Http(Take(h)));
    UpdatedTwice(s.http.reqs, h, sent.http.reqs[h], Request(resp.id, Chan([], false), Left(Answered(resp))));
  }

  lemma FrameDelivered(s: State, k: nat, frame: Frame)
    requires Streams.Inv(s) && s.loop == Reading && k < |s.sse.strs| && Streams.Mapped(s, k) && frame.id == s.sse.strs[k].id
    ensures var r := s.sse.strs[k];
            Play(s, [Loop(GetFrame(frame)), Loop(PutFrame)]) ==
            Some(if |r.ch.buf| < 32 then WithStream(s, k, r.(ch := Chan(r.ch.buf + [frame], false))) else s)
  {
    hide Play;
    assert Streams.EntrySound(s, frame.id);
    var found := s.(loop := Framing(k, frame));
    PlayTwo(s, Loop(GetFrame(frame)), found, Loop(PutFrame));
  }

  /** A frame for a stream in the table reaches the browser after the frames waiting before it; only with
      32 of them waiting is it dropped. */
  lemma {:induction false} FrameGetsThrough(run: seq<Action>, k: nat, frame: Frame)
    requires Run(run).Some? && k < |Run(run).value.sse.strs| && Run(run).value.loop == Reading
    requires Run(run).value.sse.strs[k].phase == Relaying && Streams.Mapped(Run(run).value, k)
    requires frame.id == Run(run).value.sse.strs[k].id
    ensures var s := Run(run).value;
            var r := s.sse.strs[k];
            if |r.ch.buf| < 32 then
              Play(s, [Loop(GetFrame(frame)), Loop(PutFrame)] + Relays(k, |r.ch.buf| + 1)) ==
              Some(WithStream(s, k, Stream(r.id, Chan([], false), Relaying, r.out + r.ch.buf + [frame])))
            else
              Play(s, [Loop(GetFrame(frame)), Loop(PutFrame)]) == Some(s)
  {
    hide Step, Play, Streams.Inv;
    Streams.RunKeeps(run);
    var s := Run(run).value;
    var r := s.sse.strs[k];
    FrameDelivered(s, k, frame);
    if |r.ch.buf| < 32 {
      var delivered := WithStream(s, k, r.(ch := Chan(r.ch.buf + [frame], false)));
      Drained(delivered, k);
      PlayAppend(s, [Loop(GetFrame(frame)), Loop(PutFrame)], Relays(k, |r.ch.buf| + 1));
      assert r.out + (r.ch.buf + [frame]) == r.out + r.ch.buf + [frame];
      UpdatedTwice(s.sse.strs, k, delivered.sse.strs[k], Stream(r.id, Chan([], false), Relaying, r.out + r.ch.buf + [frame]));
    }
  }

  lemma EndDelivered(s: State, k: nat)
    requires Streams.Inv(s) && s.loop == Reading && k < |s.sse.strs| && Streams.Mapped(s, k)
    ensures var r := s.sse.strs[k];
            Play(s, [Loop(GetEnd(r.id)), Loop(CloseEnded)]) ==
            Some(s.(sse := SseSide(s.sse.streams - {r.id}, s.sse.strs[k := r.(ch := Chan(r.ch.buf, true))])))
  {
    hide Play;
    var r := s.sse.strs[k];
    assert Streams.EntrySound(s, r.id);
    var found := s.(loop := Ending(k), sse := s.sse.(streams := s.sse.streams - {r.id}));
    PlayTwo(s, Loop(GetEnd(r.id)), found, Loop(CloseEnded));
  }

  /** A stream_end lets the browser have everything that was waiting and then ends the stream. */
  lemma {:induction false} EndGetsThrough(run: seq<Action>, k: nat)
    requires Run(run).Some? && k < |Run(run).value.sse.strs| && Run(run).value.loop == Reading
    requires Run(run).value.sse.strs[k].phase == Relaying && Streams.Mapped(Run(run).value, k)
    ensures var s := Run(run).value;
            var r := s.sse.strs[k];
            Play(s, [Loop(GetEnd(r.id)), Loop(CloseEnded)] + (Relays(k, |r.ch.buf|) + [Sse(SeeEnd(k))])) ==
            Some(s.(sse := SseSide(s.sse.streams - {r.id},
                                   s.sse.strs[k := Stream(r.id, Chan([], true), Ended(StreamEnded), r.out + r.ch.buf)])))
  {
    hide Step, Play, Streams.Inv;
    Streams.RunKeeps(run);
    var s := Run(run).value;
    var r := s.sse.strs[k];
    EndDelivered(s, k);
    var closed := s.(sse := SseSide(s.sse.streams - {r.id}, s.sse.strs[k := r.(ch := Chan(r.ch.buf, true))]));
    DrainedToTheEnd(closed, k);
    PlayAppend(s, [Loop(GetEnd(r.id)), Loop(CloseEnded)], Relays(k, |r.ch.buf|) + [Sse(SeeEnd(k))]);
    UpdatedTwice(s.sse.strs, k, closed.sse.strs[k], Stream(r.id, Chan([], true), Ended(StreamEnded), r.out + r.ch.buf));
  }

  // ---------------------------------------------------------------- the gateway

  /** In the gateway a connection can do whatever its own state allows, whatever the rest of the gateway
      is doing, each of its actions touching the registry or not: it registers exactly when it has been built and not yet registered, its pings are taken
      exactly while it reads, and it unregisters exactly when its loop is over; building a connection
      under a non-empty name, a pass of the reaper and the passing of time are always possible. */
  lemma {:induction false} GatewayNeverStuck(run: seq<D.Action>, c: nat, act: Action, written: bool)
    requires D.Run(run).Some? && c < |D.Run(run).value.conns|
    ensures var d := D.Run(run).value;
            var conn := d.conns[c];
            && (D.Step(d, D.Enter(c)).Some? <==> conn.tunnel.loop == Starting)
            && (D.Step(d, D.Leave(c)).Some? <==> conn.tunnel.loop == Exiting)
            && D.Step(d, D.Ping(c, written)) ==
               (if conn.tunnel.loop == Reading
                then Some(d.(conns := d.conns[c := conn.(lastPing := d.now,
                                                         tunnel := conn.tunnel.(loop := if written then Reading else Exiting))]))
                else None)
            && D.Step(d, D.Inner(c, act)) ==
               (if act == CloseOther || act == Loop(Register) || act == Loop(Unregister) || (act.Loop? && act.le.GetPing?) then None
                else match Step(conn.tunnel, act)
                  case None => None
                  case Some(t) => Some(d.(conns := d.conns[c := conn.(tunnel := t)])))
  {
    hide Step, D.Step;
    D.RunKeeps(run);
    var d := D.Run(run).value;
    assert D.ConnSound(d.conns[c].tunnel);
    CanRegister(d, c);
    CanLeave(d, c);
    CanPing(d, c, written);
    InnerIs(d, c, act);
  }

  lemma InnerIs(d: D.State, c: nat, act: Action)
    requires c < |d.conns|
    ensures D.Step(d, D.Inner(c, act)) ==
            if act == CloseOther || act == Loop(Register) || act == Loop(Unregister) || (act.Loop? && act.le.GetPing?) then None
            else match Step(d.conns[c].tunnel, act)
              case None => None
              case Some(t) => Some(d.(conns := d.conns[c := d.conns[c].(tunnel := t)]))
  {
    hide Step;
  }

  lemma CanPing(d: D.State, c: nat, written: bool)
    requires c < |d.conns|
    ensures D.Step(d, D.Ping(c, written)) ==
            if d.conns[c].tunnel.loop == Reading
            then Some(d.(conns := d.conns[c := d.conns[c].(lastPing := d.now,
                                                           tunnel := d.conns[c].tunnel.(loop := if written then Reading else Exiting))]))
            else None
  {
    hide Step;
    var conn := d.conns[c];
    CanTakePing(conn.tunnel, written);
    UpdatedTwice(d.conns, c, conn.(lastPing := d.now),
                 conn.(lastPing := d.now, tunnel := conn.tunnel.(loop := if written then Reading else Exiting)));
  }

  lemma CanTakePing(s: State, written: bool)
    ensures Step(s, Loop(GetPing(written))) ==
            if s.loop == Reading then Some(s.(loop := if written then Reading else Exiting)) else None
  {
  }

  lemma CanLeave(d: D.State, c: nat)
    requires c < |d.conns|
    ensures D.Step(d, D.Leave(c)).Some? <==> d.conns[c].tunnel.loop == Exiting
  {
  }

  lemma CanRegister(d: D.State, c: nat)
    requires D.Inv(d) && c < |d.conns|
    ensures D.Step(d, D.Enter(c)).Some? <==> d.conns[c].tunnel.loop == Starting
  {
  }

  lemma {:induction false} TimeAndReaperNeverStuck(run: seq<D.Action>, name: string, owner: string, t: nat)
    requires D.Run(run).Some?
    ensures var d := D.Run(run).value;
            && D.Step(d, D.Reap).Some?
            && D.Step(d, D.Advance(t)) == Some(d.(now := d.now + t))
            && D.Step(d, D.Build(name, owner)) ==
               (if name == "" then None else Some(d.(conns := d.conns + [D.Conn(name, owner, d.now, INIT)])))
  {
  }
}
