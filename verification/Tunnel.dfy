/**
 One Shore connection as an interleaved transition system (registry.go, gateway.go,
 shore_handler.go).

 A connection is shared by one read loop and by any number of request and stream handlers.
 Each event below is one uninterrupted piece of the source: a critical section under `mu`, one
 channel operation, one `select` decision or the outcome of one WebSocket write.  Everything the
 source does between two such pieces is a separate event, so a run is an arbitrary interleaving.

 A handler is named by its position in `reqs` or `strs`; that is also the identity of the channel
 it made.  The maps are keyed by message id, and nothing here says that ids are distinct: results
 that need distinct ids say so.
 */
module Tunnel {
  import opened Wrappers

  datatype Response = Response(id: string, status: int, headers: map<string, string>, body: string)
  datatype Frame = Frame(id: string, data: string)

  const RESPONSE_SLOTS: nat := 1
  const FRAME_SLOTS: nat := 32

  /** A Go channel: what is buffered, oldest first, and whether it has been closed. */
  datatype Chan<T> = Chan(buf: seq<T>, closed: bool)

  // ---------------------------------------------------------------- request handlers

  /** How `routeToShore` ended: the error return of the send, or one of the select arms. */
  datatype Outcome = SendError | Answered(resp: Response) | ChannelClosed | Timeout | ShoreDone

  datatype RequestPhase =
    | Writing        // in the table, WriteJSON running
    | WriteFailed    // WriteJSON failed, entry not yet deleted
    | Waiting        // in the select
    | TimedOut       // timer arm taken, entry not yet deleted
    | Left(outcome: Outcome)

  datatype Request = Request(id: string, ch: Chan<Response>, phase: RequestPhase)

  datatype HttpSide = HttpSide(pending: map<string, nat>, reqs: seq<Request>)

  datatype HttpEvent =
    | Issue(id: string)
    | Written(h: nat)
    | WriteFails(h: nat)
    | Drop(h: nat)
    | Take(h: nat)
    | TakeClosed(h: nat)
    | Timer(h: nat)
    | Cancel(h: nat)
    | SeeDone(h: nat)

  function HttpStep(t: HttpSide, done: bool, e: HttpEvent): Option<HttpSide> {
    match e
    case Issue(id) =>
      Some(HttpSide(t.pending[id := |t.reqs|], t.reqs + [Request(id, Chan([], false), Writing)]))
    case Written(h) =>
      if h < |t.reqs| && t.reqs[h].phase == Writing
      then Some(t.(reqs := t.reqs[h := t.reqs[h].(phase := Waiting)])) else None
    case WriteFails(h) =>
      if h < |t.reqs| && t.reqs[h].phase == Writing
      then Some(t.(reqs := t.reqs[h := t.reqs[h].(phase := WriteFailed)])) else None
    case Drop(h) =>
      if h < |t.reqs| && t.reqs[h].phase == WriteFailed
      then Some(HttpSide(t.pending - {t.reqs[h].id}, t.reqs[h := t.reqs[h].(phase := Left(SendError))]))
      else None
    case Take(h) =>
      if h < |t.reqs| && t.reqs[h].phase == Waiting && t.reqs[h].ch.buf != []
      then
        var q := t.reqs[h];
        Some(t.(reqs := t.reqs[h := Request(q.id, Chan(q.ch.buf[1..], q.ch.closed), Left(Answered(q.ch.buf[0])))]))
      else None
    case TakeClosed(h) =>
      if h < |t.reqs| && t.reqs[h].phase == Waiting && t.reqs[h].ch.buf == [] && t.reqs[h].ch.closed
      then Some(t.(reqs := t.reqs[h := t.reqs[h].(phase := Left(ChannelClosed))])) else None
    case Timer(h) =>
      if h < |t.reqs| && t.reqs[h].phase == Waiting
      then Some(t.(reqs := t.reqs[h := t.reqs[h].(phase := TimedOut)])) else None
    case Cancel(h) =>
      if h < |t.reqs| && t.reqs[h].phase == TimedOut
      then Some(HttpSide(t.pending - {t.reqs[h].id}, t.reqs[h := t.reqs[h].(phase := Left(Timeout))]))
      else None
    case SeeDone(h) =>
      if h < |t.reqs| && t.reqs[h].phase == Waiting && done
      then Some(t.(reqs := t.reqs[h := t.reqs[h].(phase := Left(ShoreDone))])) else None
  }

  // ---------------------------------------------------------------- stream handlers

  /** How `handleSSERequest` ended. */
  datatype Farewell = OpenError | StreamEnded | ClientGone | ShoreGone

  datatype StreamPhase =
    | Opening                 // in the table, WriteJSON running
    | OpenFailed              // WriteJSON failed, entry not yet deleted
    | Relaying                // in the select of the relay loop
    | Disconnected            // context arm taken, CloseStream not yet begun
    | Cutting(target: nat)    // CloseStream has deleted the entry, close not yet done
    | Ended(farewell: Farewell)

  /** `out` is the list of frames whose data has been written to the browser. */
  datatype Stream = Stream(id: string, ch: Chan<Frame>, phase: StreamPhase, out: seq<Frame>)

  datatype SseSide = SseSide(streams: map<string, nat>, strs: seq<Stream>)

  datatype SseEvent =
    | Open(id: string)
    | Opened(k: nat)
    | OpenFails(k: nat)
    | DropStream(k: nat)
    | Relay(k: nat)
    | SeeEnd(k: nat)
    | ClientLeaves(k: nat)
    | Cut(k: nat)
    | CloseCut(k: nat)
    | SeeGone(k: nat)

  function SetPhase(t: SseSide, k: nat, phase: StreamPhase): SseSide
    requires k < |t.strs|
  {
    t.(strs := t.strs[k := t.strs[k].(phase := phase)])
  }

  function CloseChannel(t: SseSide, k: nat): SseSide
    requires k < |t.strs|
  {
    t.(strs := t.strs[k := t.strs[k].(ch := Chan(t.strs[k].ch.buf, true))])
  }

  function SseStep(t: SseSide, done: bool, e: SseEvent): Option<SseSide> {
    match e
    case Open(id) =>
      Some(SseSide(t.streams[id := |t.strs|], t.strs + [Stream(id, Chan([], false), Opening, [])]))
    case Opened(k) =>
      if k < |t.strs| && t.strs[k].phase == Opening then Some(SetPhase(t, k, Relaying)) else None
    case OpenFails(k) =>
      if k < |t.strs| && t.strs[k].phase == Opening then Some(SetPhase(t, k, OpenFailed)) else None
    case DropStream(k) =>
      if k < |t.strs| && t.strs[k].phase == OpenFailed
      then Some(SetPhase(t, k, Ended(OpenError)).(streams := t.streams - {t.strs[k].id})) else None
    case Relay(k) =>
      if k < |t.strs| && t.strs[k].phase == Relaying && t.strs[k].ch.buf != []
      then
        var r := t.strs[k];
        Some(t.(strs := t.strs[k := r.(ch := Chan(r.ch.buf[1..], r.ch.closed), out := r.out + [r.ch.buf[0]])]))
      else None
    case SeeEnd(k) =>
      if k < |t.strs| && t.strs[k].phase == Relaying && t.strs[k].ch.buf == [] && t.strs[k].ch.closed
      then Some(SetPhase(t, k, Ended(StreamEnded))) else None
    case ClientLeaves(k) =>
      if k < |t.strs| && t.strs[k].phase == Relaying then Some(SetPhase(t, k, Disconnected)) else None
    case Cut(k) =>
      if k < |t.strs| && t.strs[k].phase == Disconnected
      then
        var id := t.strs[k].id;
        if id in t.streams
        then Some(SetPhase(t, k, Cutting(t.streams[id])).(streams := t.streams - {id}))
        else Some(SetPhase(t, k, Ended(ClientGone)))
      else None
    case CloseCut(k) =>
      if k < |t.strs| && t.strs[k].phase.Cutting? && t.strs[k].phase.target < |t.strs|
      then
        var target := t.strs[k].phase.target;
        Some(SetPhase(CloseChannel(t, target), k, Ended(ClientGone)))
      else None
    case SeeGone(k) =>
      if k < |t.strs| && t.strs[k].phase == Relaying && done
      then Some(SetPhase(t, k, Ended(ShoreGone))) else None
  }

  // ---------------------------------------------------------------- the read loop

  /** Where the one goroutine running `shoreConnectHandler` and `runShoreReadLoop` is. */
  datatype Loop =
    | Starting                               // built, not yet registered
    | Reading
    | Answering(h: nat, resp: Response)      // DeliverResponse: found and deleted, not yet sent
    | Framing(k: nat, frame: Frame)          // DeliverFrame: found, not yet sent
    | Ending(k: nat)                         // CloseStream: found and deleted, not yet closed
    | Exiting                                // returned or panicked, deferred Unregister not yet run
    | Unregistered                           // deferred Close not yet run
    | Stopped

  datatype LoopEvent =
    | Register
    | GetResponse(resp: Response)
    | PutResponse
    | GetFrame(frame: Frame)
    | PutFrame
    | GetEnd(id: string)
    | CloseEnded
    | GetPing(pongWritten: bool)
    | GetOther
    | ReadFails
    | Unregister
    | CloseOwn

  datatype State = State(http: HttpSide, sse: SseSide, loop: Loop, done: bool)

  const INIT: State := State(HttpSide(map[], []), SseSide(map[], []), Starting, false)

  function LoopStep(s: State, e: LoopEvent): Option<State> {
    match e
    case Register => if s.loop == Starting then Some(s.(loop := Reading)) else None
    case GetResponse(resp) =>
      if s.loop != Reading then None
      else if resp.id in s.http.pending
      then Some(s.(loop := Answering(s.http.pending[resp.id], resp),
                   http := s.http.(pending := s.http.pending - {resp.id})))
      else Some(s)
    case PutResponse =>
      if !s.loop.Answering? || s.loop.h >= |s.http.reqs| then None
      else
        var q := s.http.reqs[s.loop.h];
        if q.ch.closed then Some(s.(loop := Exiting))
        else if |q.ch.buf| < RESPONSE_SLOTS
        then Some(s.(loop := Reading,
                     http := s.http.(reqs := s.http.reqs[s.loop.h := q.(ch := Chan(q.ch.buf + [s.loop.resp], false))])))
        else Some(s.(loop := Reading))
    case GetFrame(frame) =>
      if s.loop != Reading then None
      else if frame.id in s.sse.streams then Some(s.(loop := Framing(s.sse.streams[frame.id], frame)))
      else Some(s)
    case PutFrame =>
      if !s.loop.Framing? || s.loop.k >= |s.sse.strs| then None
      else
        var r := s.sse.strs[s.loop.k];
        if r.ch.closed then Some(s.(loop := Exiting))
        else if |r.ch.buf| < FRAME_SLOTS
        then Some(s.(loop := Reading,
                     sse := s.sse.(strs := s.sse.strs[s.loop.k := r.(ch := Chan(r.ch.buf + [s.loop.frame], false))])))
        else Some(s.(loop := Reading))
    case GetEnd(id) =>
      if s.loop != Reading then None
      else if id in s.sse.streams
      then Some(s.(loop := Ending(s.sse.streams[id]), sse := s.sse.(streams := s.sse.streams - {id})))
      else Some(s)
    case CloseEnded =>
      if !s.loop.Ending? || s.loop.k >= |s.sse.strs| then None
      else if s.sse.strs[s.loop.k].ch.closed then Some(s.(loop := Exiting))
      else Some(s.(loop := Reading, sse := CloseChannel(s.sse, s.loop.k)))
    case GetPing(pongWritten) =>
      if s.loop != Reading then None else Some(s.(loop := if pongWritten then Reading else Exiting))
    case GetOther => if s.loop == Reading then Some(s) else None
    case ReadFails => if s.loop == Reading then Some(s.(loop := Exiting)) else None
    case Unregister => if s.loop == Exiting then Some(s.(loop := Unregistered)) else None
    case CloseOwn => if s.loop == Unregistered then Some(s.(loop := Stopped, done := true)) else None
  }

  // ---------------------------------------------------------------- runs

  /** `CloseOther` is a call of Close by a replacing Register or by the reaper. */
  datatype Action = Http(he: HttpEvent) | Sse(se: SseEvent) | Loop(le: LoopEvent) | CloseOther

  function Step(s: State, a: Action): Option<State> {
    match a
    case Http(e) =>
      if s.loop.Starting? then None
      else (match HttpStep(s.http, s.done, e)
            case None => None
            case Some(t) => Some(s.(http := t)))
    case Sse(e) =>
      if s.loop.Starting? then None
      else (match SseStep(s.sse, s.done, e)
            case None => None
            case Some(t) => Some(s.(sse := t)))
    case Loop(e) => LoopStep(s, e)
    case CloseOther => if s.loop.Starting? then None else Some(s.(done := true))
  }

  predicate ClosedRequest(s: State, h: nat) {
    h < |s.http.reqs| && s.http.reqs[h].ch.closed
  }

  predicate ClosedStream(s: State, k: nat) {
    k < |s.sse.strs| && s.sse.strs[k].ch.closed
  }

  /** The action sends on a closed channel or closes one, which panics.  The read loop and the handlers
      run in handlers of an HTTP server, which recovers the panic after the deferred functions have run:
      a panicking read loop goes on to its deferred cleanup, a panicking handler ends. */
  predicate Panics(s: State, a: Action) {
    match a
    case Loop(PutResponse) => s.loop.Answering? && ClosedRequest(s, s.loop.h)
    case Loop(PutFrame) => s.loop.Framing? && ClosedStream(s, s.loop.k)
    case Loop(CloseEnded) => s.loop.Ending? && ClosedStream(s, s.loop.k)
    case Sse(CloseCut(k)) =>
      k < |s.sse.strs| && s.sse.strs[k].phase.Cutting? && ClosedStream(s, s.sse.strs[k].phase.target)
    case _ => false
  }

  /** The read loop has returned or panicked. */
  predicate LoopIsOver(s: State) {
    s.loop.Exiting? || s.loop.Unregistered? || s.loop.Stopped?
  }

  /** The state a run reaches, or None if some action of it was not possible. */
  function Run(run: seq<Action>): Option<State> {
    if run == [] then Some(INIT)
    else match Run(run[..|run|-1])
      case None => None
      case Some(s) => Step(s, run[|run|-1])
  }

  lemma {:induction false} RunSnoc(run: seq<Action>, a: Action)
    ensures Run(run + [a]) == if Run(run).Some? then Step(Run(run).value, a) else None
  {
    assert (run + [a])[..|run|] == run;
  }

  lemma {:induction false} RunPrefix(run: seq<Action>, n: nat)
    requires n <= |run| && Run(run).Some?
    ensures Run(run[..n]).Some?
    decreases |run|
  {
    if n < |run| {
      RunPrefix(run[..|run|-1], n);
      assert run[..|run|-1][..n] == run[..n];
    } else {
      assert run[..n] == run;
    }
  }

  /** Steps of one connection taken one after the other, nothing else happening in between; None if
      one of them is not possible or panics. */
  function Play(s: State, acts: seq<Action>): Option<State>
    decreases |acts|
  {
    if acts == [] then Some(s)
    else if Panics(s, acts[0]) then None
    else match Step(s, acts[0])
      case None => None
      case Some(next) => Play(next, acts[1..])
  }

  lemma PlayNothing(s: State)
    ensures Play(s, []) == Some(s)
  {
  }

  lemma PlayOne(s: State, a: Action)
    requires !Panics(s, a)
    ensures Play(s, [a]) == Step(s, a)
  {
    hide Step, Panics;
    assert [a][1..] == [];
  }

  lemma PlayTwo(s: State, a: Action, next: State, b: Action)
    requires Step(s, a) == Some(next) && !Panics(s, a) && !Panics(next, b)
    ensures Play(s, [a, b]) == Step(next, b)
  {
    hide Step, Panics;
    assert [a, b][1..] == [b];
    PlayOne(next, b);
  }

  lemma PlayThree(s: State, a: Action, next: State, b: Action, last: State, c: Action)
    requires Step(s, a) == Some(next) && !Panics(s, a)
    requires Step(next, b) == Some(last) && !Panics(next, b) && !Panics(last, c)
    ensures Play(s, [a, b, c]) == Step(last, c)
  {
    hide Step, Panics;
    assert [a, b, c][1..] == [b, c];
    PlayTwo(next, b, last, c);
  }

  lemma {:induction false} PlayAppend(s: State, first: seq<Action>, second: seq<Action>)
    requires Play(s, first).Some?
    ensures Play(s, first + second) == Play(Play(s, first).value, second)
    decreases |first|
  {
    hide Step, Panics;
    if first == [] {
      assert first + second == second;
    } else {
      assert (first + second)[1..] == first[1..] + second;
      PlayAppend(Step(s, first[0]).value, first[1..], second);
    }
  }
}
