/**
 `ShoreConnection` as the source writes it: an object whose maps and channels are updated in place
 (registry.go, shore_handler.go).  Each method runs here without interference; its contract says what
 it does to the object and that this is a sequence of steps of `Tunnel`, so that interleaving those
 steps is interleaving the source's critical sections.
 */
module Connection {
  import opened Wrappers
  import opened Tunnel
  import Requests
  import Streams

  /** What one call of ReadMessage yields, parsed; a ping comes with the time at which it is
      handled and the outcome of writing its pong. */
  datatype Inbound =
    | PingMessage(at: int, pongWritten: bool)
    | ResponseMessage(resp: Response)
    | FrameMessage(frame: Frame)
    | EndMessage(id: string)
    | OtherMessage

  /** The steps of the read loop for one message. */
  function Served(s: State, msg: Inbound): seq<Action> {
    match msg
    case PingMessage(_, pongWritten) => [Loop(GetPing(pongWritten))]
    case ResponseMessage(resp) =>
      if resp.id in s.http.pending then [Loop(GetResponse(resp)), Loop(PutResponse)] else [Loop(GetResponse(resp))]
    case FrameMessage(frame) =>
      if frame.id in s.sse.streams then [Loop(GetFrame(frame)), Loop(PutFrame)] else [Loop(GetFrame(frame))]
    case EndMessage(id) =>
      if id in s.sse.streams then [Loop(GetEnd(id)), Loop(CloseEnded)] else [Loop(GetEnd(id))]
    case OtherMessage => [Loop(GetOther)]
  }

  /** The pong could not be written, which ends the read loop. */
  predicate Fails(msg: Inbound) {
    msg.PingMessage? && !msg.pongWritten
  }

  /** The steps of the read loop for the messages it reads until reading, or writing a pong, fails. */
  ghost function ServedAll(s: State, inbox: seq<Inbound>): seq<Action>
    decreases |inbox|
  {
    if inbox == [] then [Loop(ReadFails)]
    else
      var now := Served(s, inbox[0]);
      if Fails(inbox[0]) || Play(s, now) == None then now
      else now + ServedAll(Play(s, now).value, inbox[1..])
  }

  ghost predicate Sound(s: State) {
    Requests.Inv(s) && Streams.Inv(s)
  }

  lemma Keeps(s: State, a: Action, s': State)
    requires Sound(s) && Step(s, a) == Some(s')
    ensures Sound(s')
  {
    hide Step, Requests.Inv, Streams.Inv;
    Requests.StepKeeps(s, a);
    Streams.StepKeeps(s, a);
  }

  class ShoreConnection {
    const name: string
    const owner: string
    var lastPing: int
    var pending: map<string, nat>
    var streams: map<string, nat>
    var reqs: seq<Request>
    var strs: seq<Stream>
    var loop: Loop
    var done: bool

    function View(): State
      reads this
    {
      State(HttpSide(pending, reqs), SseSide(streams, strs), loop, done)
    }

    ghost predicate Valid()
      reads this
    {
      Sound(View())
    }

    constructor (name: string, owner: string, now: int)
      ensures Valid() && View() == INIT
      ensures this.name == name && this.owner == owner && lastPing == now
    {
      this.name := name;
      this.owner := owner;
      lastPing := now;
      pending := map[];
      streams := map[];
      reqs := [];
      strs := [];
      loop := Starting;
      done := false;
    }

    /** Registers a pending request and writes it; a failed write takes the entry back. */
    method SendHTTPRequest(id: string, written: bool) returns (h: nat)
      requires Valid() && loop != Starting
      modifies this
      ensures Valid() && h == |old(reqs)|
      ensures Play(old(View()), if written then [Http(Issue(id)), Http(Written(h))]
                                else [Http(Issue(id)), Http(WriteFails(h)), Http(Drop(h))]) == Some(View())
      ensures reqs == old(reqs) + [Request(id, Chan([], false), if written then Waiting else Left(SendError))]
      ensures pending == if written then old(pending)[id := h] else old(pending) - {id}
      ensures unchanged(`streams, `strs, `loop, `done, `lastPing)
    {
      hide Sound, Play;
      ghost var s0 := View();
      h := |reqs|;
      pending := pending[id := h];
      reqs := reqs + [Request(id, Chan([], false), Writing)];
      ghost var s1 := View();
      Keeps(s0, Http(Issue(id)), s1);
      if written {
        reqs := reqs[h := reqs[h].(phase := Waiting)];
        Keeps(s1, Http(Written(h)), View());
        PlayTwo(s0, Http(Issue(id)), s1, Http(Written(h)));
      } else {
        reqs := reqs[h := reqs[h].(phase := WriteFailed)];
        ghost var s2 := View();
        Keeps(s1, Http(WriteFails(h)), s2);
        pending := pending - {id};
        reqs := reqs[h := reqs[h].(phase := Left(SendError))];
        Keeps(s2, Http(Drop(h)), View());
        PlayThree(s0, Http(Issue(id)), s1, Http(WriteFails(h)), s2, Http(Drop(h)));
      }
    }

    /** Routes a response to the waiting caller, if there is one. */
    method DeliverResponse(resp: Response)
      requires Valid() && loop == Reading
      modifies this
      ensures Valid()
      ensures Play(old(View()), Served(old(View()), ResponseMessage(resp))) == Some(View())
      ensures pending == old(pending) - {resp.id}
      ensures resp.id in old(pending) ==>
                var h := old(pending)[resp.id];
                h < |old(reqs)| && reqs == old(reqs)[h := old(reqs)[h].(ch := Chan([resp], false))]
      ensures resp.id !in old(pending) ==> reqs == old(reqs)
      ensures unchanged(`streams, `strs, `loop, `done, `lastPing)
    {
      hide Play;
      ghost var s0 := View();
      if resp.id in pending {
        assert Requests.EntrySound(s0, resp.id);
        var h := pending[resp.id];
        pending := pending - {resp.id};
        ghost var s1 := View().(loop := Answering(h, resp));
        Keeps(s0, Loop(GetResponse(resp)), s1);
        if |reqs[h].ch.buf| < RESPONSE_SLOTS {
          reqs := reqs[h := reqs[h].(ch := Chan(reqs[h].ch.buf + [resp], reqs[h].ch.closed))];
          assert [] + [resp] == [resp];
        }
        Keeps(s1, Loop(PutResponse), View());
        PlayTwo(s0, Loop(GetResponse(resp)), s1, Loop(PutResponse));
      } else {
        PlayOne(s0, Loop(GetResponse(resp)));
      }
    }
  
    /** Registers a stream and announces it to the Shore; a failed write takes the entry back. */
    method OpenStream(id: string, written: bool) returns (k: nat)
      requires Valid() && loop != Starting
      modifies this
      ensures Valid() && k == |old(strs)|
      ensures Play(old(View()), if written then [Sse(Open(id)), Sse(Opened(k))]
                                else [Sse(Open(id)), Sse(OpenFails(k)), Sse(DropStream(k))]) == Some(View())
      ensures strs == old(strs) + [Stream(id, Chan([], false), if written then Relaying else Ended(OpenError), [])]
      ensures streams == if written then old(streams)[id := k] else old(streams) - {id}
      ensures unchanged(`pending, `reqs, `loop, `done, `lastPing)
    {
      hide Sound, Play;
      ghost var s0 := View();
      k := |strs|;
      streams := streams[id := k];
      strs := strs + [Stream(id, Chan([], false), Opening, [])];
      ghost var s1 := View();
      Keeps(s0, Sse(Open(id)), s1);
      if written {
        strs := strs[k := strs[k].(phase := Relaying)];
        Keeps(s1, Sse(Opened(k)), View());
        PlayTwo(s0, Sse(Open(id)), s1, Sse(Opened(k)));
      } else {
        strs := strs[k := strs[k].(phase := OpenFailed)];
        ghost var s2 := View();
        Keeps(s1, Sse(OpenFails(k)), s2);
        streams := streams - {id};
        strs := strs[k := strs[k].(phase := Ended(OpenError))];
        Keeps(s2, Sse(DropStream(k)), View());
        PlayThree(s0, Sse(Open(id)), s1, Sse(OpenFails(k)), s2, Sse(DropStream(k)));
      }
    }

    /** Routes a frame to its stream, dropping it if the stream has 32 frames waiting. */
    method DeliverFrame(frame: Frame)
      requires Valid() && loop == Reading
      modifies this
      ensures Valid()
      ensures Play(old(View()), Served(old(View()), FrameMessage(frame))) == Some(View())
      ensures frame.id in old(streams) ==>
                var k := old(streams)[frame.id];
                k < |old(strs)| &&
                strs == if |old(strs)[k].ch.buf| < 32
                        then old(strs)[k := old(strs)[k].(ch := Chan(old(strs)[k].ch.buf + [frame], false))]
                        else old(strs)
      ensures frame.id !in old(streams) ==> strs == old(strs)
      ensures unchanged(`pending, `streams, `reqs, `loop, `done, `lastPing)
    {
      hide Play;
      ghost var s0 := View();
      if frame.id in streams {
        assert Streams.EntrySound(s0, frame.id);
        var k := streams[frame.id];
        ghost var s1 := View().(loop := Framing(k, frame));
        Keeps(s0, Loop(GetFrame(frame)), s1);
        if |strs[k].ch.buf| < FRAME_SLOTS {
          strs := strs[k := strs[k].(ch := Chan(strs[k].ch.buf + [frame], strs[k].ch.closed))];
        }
        Keeps(s1, Loop(PutFrame), View());
        PlayTwo(s0, Loop(GetFrame(frame)), s1, Loop(PutFrame));
      } else {
        PlayOne(s0, Loop(GetFrame(frame)));
      }
    }

    /** Closes and removes the channel of a stream, if it has an entry. */
    method CloseStream(id: string)
      requires Valid()
      modifies this
      ensures streams == old(streams) - {id}
      ensures id in old(streams) ==>
                var k := old(streams)[id];
                && k < |old(strs)| && !old(strs)[k].ch.closed
                && strs == old(strs)[k := old(strs)[k].(ch := Chan(old(strs)[k].ch.buf, true))]
      ensures id !in old(streams) ==> strs == old(strs)
      ensures old(loop) == Reading ==>
                && Valid()
                && Play(old(View()), Served(old(View()), EndMessage(id))) == Some(View())
      ensures unchanged(`pending, `reqs, `loop, `done, `lastPing)
    {
      hide Play;
      ghost var s0 := View();
      if id in streams {
        assert Streams.EntrySound(s0, id);
        var k := streams[id];
        streams := streams - {id};
        ghost var s1 := View().(loop := Ending(k));
        strs := strs[k := strs[k].(ch := Chan(strs[k].ch.buf, true))];
        if loop == Reading {
          Keeps(s0, Loop(GetEnd(id)), s1);
          Keeps(s1, Loop(CloseEnded), View());
          PlayTwo(s0, Loop(GetEnd(id)), s1, Loop(CloseEnded));
        }
      } else if loop == Reading {
        PlayOne(s0, Loop(GetEnd(id)));
      }
    }

    /** The relay loop of handler `k` sees that its client has gone. */
    method HangUp(k: nat)
      requires Valid() && loop != Starting && k < |strs| && strs[k].phase == Relaying
      modifies this
      ensures Valid() && k < |strs| && strs[k].phase == Ended(ClientGone)
      ensures Play(old(View()), if old(strs)[k].id in old(streams) then [Sse(ClientLeaves(k)), Sse(Cut(k)), Sse(CloseCut(k))]
                                else [Sse(ClientLeaves(k)), Sse(Cut(k))]) == Some(View())
      ensures streams == old(streams) - {old(strs)[k].id}
      ensures unchanged(`pending, `reqs, `loop, `done, `lastPing)
    {
      hide Sound, Play;
      var id := strs[k].id;
      ghost var s0 := View();
      ghost var s1 := s0.(sse := SetPhase(s0.sse, k, Disconnected));
      Keeps(s0, Sse(ClientLeaves(k)), s1);
      CloseStream(id);
      strs := strs[k := strs[k].(phase := Ended(ClientGone))];
      if id in s0.sse.streams {
        var target := s0.sse.streams[id];
        ghost var s2 := s1.(sse := SetPhase(s1.sse, k, Cutting(target)).(streams := s1.sse.streams - {id}));
        Keeps(s1, Sse(Cut(k)), s2);
        assert strs == SetPhase(CloseChannel(s2.sse, target), k, Ended(ClientGone)).strs;
        Keeps(s2, Sse(CloseCut(k)), View());
        PlayThree(s0, Sse(ClientLeaves(k)), s1, Sse(Cut(k)), s2, Sse(CloseCut(k)));
      } else {
        assert strs == SetPhase(s1.sse, k, Ended(ClientGone)).strs;
        assert streams == s1.sse.streams;
        Keeps(s1, Sse(Cut(k)), View());
        PlayTwo(s0, Sse(ClientLeaves(k)), s1, Sse(Cut(k)));
      }
    }
  
    /** Removes a pending request without delivering a response. */
    method CancelPendingRequest(id: string)
      modifies this`pending
      ensures pending == old(pending) - {id}
    {
      pending := pending - {id};
    }

    /** Request handler `h` takes the timer arm of its select. */
    method TimeOut(h: nat)
      requires Valid() && loop != Starting && h < |reqs| && reqs[h].phase == Waiting
      modifies this
      ensures Valid() && h < |reqs| && reqs[h].phase == Left(Timeout)
      ensures Play(old(View()), [Http(Timer(h)), Http(Cancel(h))]) == Some(View())
      ensures unchanged(`streams, `strs, `loop, `done, `lastPing)
    {
      hide Sound, Play;
      ghost var s0 := View();
      ghost var s1 := s0.(http := s0.http.(reqs := s0.http.reqs[h := s0.http.reqs[h].(phase := TimedOut)]));
      Keeps(s0, Http(Timer(h)), s1);
      CancelPendingRequest(reqs[h].id);
      reqs := reqs[h := reqs[h].(phase := Left(Timeout))];
      assert reqs == s1.http.reqs[h := s1.http.reqs[h].(phase := Left(Timeout))];
      Keeps(s1, Http(Cancel(h)), View());
      PlayTwo(s0, Http(Timer(h)), s1, Http(Cancel(h)));
    }

    /** Tears down the connection; a second call has no effect. */
    method Close()
      requires Valid() && loop != Starting
      modifies this`done
      ensures Valid() && done && View() == old(View()).(done := true)
      ensures Step(old(View()), CloseOther) == Some(View())
    {
      hide Sound;
      ghost var s0 := View();
      if !done {
        done := true;
      }
      Keeps(s0, CloseOther, View());
    }

    /** The read loop handles one message; `stop` says that it has to return. */
    method Dispatch(msg: Inbound) returns (stop: bool)
      requires Valid() && loop == Reading
      modifies this
      ensures Valid() && stop == Fails(msg) && loop == if stop then Exiting else Reading
      ensures Play(old(View()), Served(old(View()), msg)) == Some(View())
      ensures lastPing == if msg.PingMessage? then msg.at else old(lastPing)
      ensures done == old(done)
      ensures pending == if msg.ResponseMessage? then old(pending) - {msg.resp.id} else old(pending)
      ensures streams == if msg.EndMessage? then old(streams) - {msg.id} else old(streams)
      ensures msg.ResponseMessage? && msg.resp.id in old(pending) ==>
                var h := old(pending)[msg.resp.id];
                h < |old(reqs)| && reqs == old(reqs)[h := old(reqs)[h].(ch := Chan([msg.resp], false))]
      ensures msg.FrameMessage? && msg.frame.id in old(streams) ==>
                var k := old(streams)[msg.frame.id];
                k < |old(strs)| &&
                strs == if |old(strs)[k].ch.buf| < 32
                        then old(strs)[k := old(strs)[k].(ch := Chan(old(strs)[k].ch.buf + [msg.frame], false))]
                        else old(strs)
      ensures msg.EndMessage? && msg.id in old(streams) ==>
                var k := old(streams)[msg.id];
                k < |old(strs)| && strs == old(strs)[k := old(strs)[k].(ch := Chan(old(strs)[k].ch.buf, true))]
      ensures msg.PingMessage? || msg.OtherMessage? ==> reqs == old(reqs) && strs == old(strs)
    {
      hide Sound, Step, Play;
      stop := false;
      ghost var before := View();
      match msg {
        case PingMessage(at, pongWritten) =>
          lastPing := at;
          if !pongWritten {
            loop := Exiting;
            stop := true;
          }
          Pinged(before, pongWritten, View());
        case ResponseMessage(resp) => DeliverResponse(resp);
        case FrameMessage(frame) => DeliverFrame(frame);
        case EndMessage(id) => CloseStream(id);
        case OtherMessage => Ignored(before);
      }
    }

    /** The read loop, on the messages that arrive before reading fails; it returns early when a pong
        cannot be written.  Its whole effect is that of its critical sections in order. */
    method RunReadLoop(inbox: seq<Inbound>)
      requires Valid() && loop == Reading
      modifies this
      ensures Valid() && loop == Exiting
      ensures Play(old(View()), ServedAll(old(View()), inbox)) == Some(View())
      ensures done == old(done)
    {
      hide Sound, Step, Play, ServedAll, Served;
      ghost var s0 := View();
      ghost var played: seq<Action> := [];
      PlayNothing(s0);
      assert inbox[0..] == inbox && [] + ServedAll(s0, inbox) == ServedAll(s0, inbox);
      var i := 0;
      while i < |inbox|
        invariant 0 <= i <= |inbox|
        invariant Valid() && loop == Reading && done == old(done)
        invariant Play(s0, played) == Some(View())
        invariant ServedAll(s0, inbox) == played + ServedAll(View(), inbox[i..])
      {
        ghost var before := View();
        var stop := Dispatch(inbox[i]);
        assert inbox[i..][0] == inbox[i] && inbox[i..][1..] == inbox[i+1..];
        ServedFirst(before, inbox[i..], View());
        PlayAppend(s0, played, Served(before, inbox[i]));
        if stop {
          return;
        }
        assert played + (Served(before, inbox[i]) + ServedAll(View(), inbox[i+1..]))
            == (played + Served(before, inbox[i])) + ServedAll(View(), inbox[i+1..]);
        played := played + Served(before, inbox[i]);
        i := i + 1;
      }
      assert inbox[i..] == [];
      ghost var before := View();
      loop := Exiting;
      ReadingFailed(before);
      PlayAppend(s0, played, [Loop(ReadFails)]);
    }
  }

  lemma Pinged(s: State, pongWritten: bool, s': State)
    requires Sound(s) && s.loop == Reading
    requires s' == s.(loop := if pongWritten then Reading else Exiting)
    ensures Play(s, [Loop(GetPing(pongWritten))]) == Some(s') && Sound(s')
  {
    hide Play, Sound;
    PlayOne(s, Loop(GetPing(pongWritten)));
    Keeps(s, Loop(GetPing(pongWritten)), s');
  }

  lemma Ignored(s: State)
    requires s.loop == Reading
    ensures Play(s, [Loop(GetOther)]) == Some(s)
  {
    hide Play;
    PlayOne(s, Loop(GetOther));
  }

  lemma ReadingFailed(s: State)
    requires Sound(s) && s.loop == Reading
    ensures ServedAll(s, []) == [Loop(ReadFails)]
    ensures Play(s, [Loop(ReadFails)]) == Some(s.(loop := Exiting)) && Sound(s.(loop := Exiting))
  {
    hide Play, Sound;
    PlayOne(s, Loop(ReadFails));
    Keeps(s, Loop(ReadFails), s.(loop := Exiting));
  }

  lemma ServedFirst(s: State, inbox: seq<Inbound>, s': State)
    requires inbox != [] && Play(s, Served(s, inbox[0])) == Some(s')
    ensures ServedAll(s, inbox) ==
            if Fails(inbox[0]) then Served(s, inbox[0]) else Served(s, inbox[0]) + ServedAll(s', inbox[1..])
  {
    hide Play;
  }
}
