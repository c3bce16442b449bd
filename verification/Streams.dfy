/**
 Event streams over one connection: who may close a stream's channel and when, when a send can
 meet a closed channel, and what exactly a browser is shown.
 */
module Streams {
  import opened Wrappers
  import opened Tunnel

  // ---------------------------------------------------------------- the state invariant

  predicate Mapped(s: State, k: nat)
    requires k < |s.sse.strs|
  {
    var id := s.sse.strs[k].id;
    id in s.sse.streams && s.sse.streams[id] == k
  }

  /** What holds of a single stream. */
  predicate Sound(r: Stream, done: bool) {
    && |r.ch.buf| <= FRAME_SLOTS
    && (forall i :: 0 <= i < |r.ch.buf| ==> r.ch.buf[i].id == r.id)
    && (forall i :: 0 <= i < |r.out| ==> r.out[i].id == r.id)
    && (r.phase == Ended(StreamEnded) ==> r.ch.closed && r.ch.buf == [])
    && (r.phase == Ended(ShoreGone) ==> done)
  }

  /** A table entry leads to the stream with that id; nobody has closed it or is about to, and its
      handler can have finished only by seeing `done`. */
  predicate EntrySound(s: State, id: string)
    requires id in s.sse.streams
  {
    var k := s.sse.streams[id];
    && k < |s.sse.strs|
    && s.sse.strs[k].id == id
    && !s.sse.strs[k].ch.closed
    && s.loop != Ending(k)
    && (s.sse.strs[k].phase.Ended? ==> s.sse.strs[k].phase.farewell == ShoreGone)
  }

  /** A handler inside CloseStream holds an open channel that is out of the table and that nobody
      else is about to close. */
  ghost predicate CutterSound(s: State, t: nat)
    requires t < |s.sse.strs| && s.sse.strs[t].phase.Cutting?
  {
    var k := s.sse.strs[t].phase.target;
    && k < |s.sse.strs|
    && s.sse.strs[k].id == s.sse.strs[t].id
    && !s.sse.strs[k].ch.closed
    && !Mapped(s, k)
    && !Mapped(s, t)
    && s.loop != Ending(k)
    && (forall u :: 0 <= u < |s.sse.strs| && s.sse.strs[u].phase == Cutting(k) ==> u == t)
  }

  predicate LoopSound(s: State) {
    && (s.loop.Framing? ==> s.loop.k < |s.sse.strs| && s.sse.strs[s.loop.k].id == s.loop.frame.id)
    && (s.loop.Ending? ==>
          && s.loop.k < |s.sse.strs|
          && !s.sse.strs[s.loop.k].ch.closed
          && !Mapped(s, s.loop.k))
  }

  ghost predicate Inv(s: State) {
    && (forall k :: 0 <= k < |s.sse.strs| ==> Sound(s.sse.strs[k], s.done))
    && (forall id :: id in s.sse.streams ==> EntrySound(s, id))
    && (forall t :: 0 <= t < |s.sse.strs| && s.sse.strs[t].phase.Cutting? ==> CutterSound(s, t))
    && LoopSound(s)
  }

  lemma SseKeepsStreams(s: State, e: SseEvent, k: nat)
    requires Step(s, Sse(e)).Some? && k < |Step(s, Sse(e)).value.sse.strs|
    requires k < |s.sse.strs| ==> Sound(s.sse.strs[k], s.done)
    ensures Sound(Step(s, Sse(e)).value.sse.strs[k], s.done)
  {
  }

  lemma SseKeepsEntries(s: State, e: SseEvent, id: string)
    requires Inv(s) && Step(s, Sse(e)).Some? && id in Step(s, Sse(e)).value.sse.streams
    ensures EntrySound(Step(s, Sse(e)).value, id)
  {
  }

  lemma CutKeepsCutters(s: State, k: nat, t: nat)
    requires Inv(s) && Step(s, Sse(Cut(k))).Some?
    requires t < |s.sse.strs| && Step(s, Sse(Cut(k))).value.sse.strs[t].phase.Cutting?
    ensures CutterSound(Step(s, Sse(Cut(k))).value, t)
  {
    if t != k {
      assert CutterSound(s, t);
    }
  }

  lemma CloseCutKeepsCutters(s: State, k: nat, t: nat)
    requires Inv(s) && Step(s, Sse(CloseCut(k))).Some?
    requires t < |s.sse.strs| && Step(s, Sse(CloseCut(k))).value.sse.strs[t].phase.Cutting?
    ensures CutterSound(Step(s, Sse(CloseCut(k))).value, t)
  {
    assert CutterSound(s, t) && CutterSound(s, k);
  }

  lemma OtherKeepsCutters(s: State, e: SseEvent, t: nat)
    requires Inv(s) && Step(s, Sse(e)).Some? && !e.Cut? && !e.CloseCut?
    requires t < |Step(s, Sse(e)).value.sse.strs| && Step(s, Sse(e)).value.sse.strs[t].phase.Cutting?
    ensures CutterSound(Step(s, Sse(e)).value, t)
  {
    assert t < |s.sse.strs| && s.sse.strs[t].phase.Cutting?;
    assert CutterSound(s, t);
  }

  lemma SseKeepsCutters(s: State, e: SseEvent, t: nat)
    requires Inv(s) && Step(s, Sse(e)).Some?
    requires t < |Step(s, Sse(e)).value.sse.strs| && Step(s, Sse(e)).value.sse.strs[t].phase.Cutting?
    ensures CutterSound(Step(s, Sse(e)).value, t)
  {
    match e
    case Cut(k) => CutKeepsCutters(s, k, t);
    case CloseCut(k) => CloseCutKeepsCutters(s, k, t);
    case _ => OtherKeepsCutters(s, e, t);
  }

  lemma SseKeepsLoop(s: State, e: SseEvent)
    requires Inv(s) && Step(s, Sse(e)).Some?
    ensures LoopSound(Step(s, Sse(e)).value)
  {
  }

  lemma SseKeeps(s: State, e: SseEvent)
    requires Inv(s) && Step(s, Sse(e)).Some?
    ensures Inv(Step(s, Sse(e)).value)
  {
    var s' := Step(s, Sse(e)).value;
    forall k | 0 <= k < |s'.sse.strs| ensures Sound(s'.sse.strs[k], s'.done) {
      SseKeepsStreams(s, e, k);
    }
    forall id | id in s'.sse.streams ensures EntrySound(s', id) {
      SseKeepsEntries(s, e, id);
    }
    forall t | 0 <= t < |s'.sse.strs| && s'.sse.strs[t].phase.Cutting? ensures CutterSound(s', t) {
      SseKeepsCutters(s, e, t);
    }
    SseKeepsLoop(s, e);
  }

  lemma LoopKeepsEntries(s: State, e: LoopEvent, id: string)
    requires Inv(s) && Step(s, Loop(e)).Some? && id in Step(s, Loop(e)).value.sse.streams
    ensures EntrySound(Step(s, Loop(e)).value, id)
  {
  }

  lemma LoopKeepsCutters(s: State, e: LoopEvent, t: nat)
    requires Inv(s) && Step(s, Loop(e)).Some?
    requires t < |s.sse.strs| && s.sse.strs[t].phase.Cutting?
    ensures CutterSound(Step(s, Loop(e)).value, t)
  {
    assert CutterSound(s, t);
  }

  lemma LoopKeepsStreams(s: State, e: LoopEvent, k: nat)
    requires Inv(s) && Step(s, Loop(e)).Some? && k < |s.sse.strs|
    ensures Sound(Step(s, Loop(e)).value.sse.strs[k], Step(s, Loop(e)).value.done)
  {
  }

  lemma LoopKeepsLoop(s: State, e: LoopEvent)
    requires Inv(s) && Step(s, Loop(e)).Some?
    ensures LoopSound(Step(s, Loop(e)).value)
  {
  }

  lemma LoopKeeps(s: State, e: LoopEvent)
    requires Inv(s) && Step(s, Loop(e)).Some?
    ensures Inv(Step(s, Loop(e)).value)
  {
    var s' := Step(s, Loop(e)).value;
    StreamsOnlyGrow(s, Loop(e));
    forall k | 0 <= k < |s'.sse.strs| ensures Sound(s'.sse.strs[k], s'.done) {
      LoopKeepsStreams(s, e, k);
    }
    forall id | id in s'.sse.streams ensures EntrySound(s', id) {
      LoopKeepsEntries(s, e, id);
    }
    forall t | 0 <= t < |s'.sse.strs| && s'.sse.strs[t].phase.Cutting? ensures CutterSound(s', t) {
      LoopKeepsCutters(s, e, t);
    }
    LoopKeepsLoop(s, e);
  }

  /** Streams are never removed or renamed; only Open adds one, and only handlers change phase. */
  lemma StreamsOnlyGrow(s: State, a: Action)
    requires Step(s, a).Some?
    ensures var s' := Step(s, a).value;
            && |s.sse.strs| <= |s'.sse.strs|
            && (forall k :: 0 <= k < |s.sse.strs| ==> s'.sse.strs[k].id == s.sse.strs[k].id)
            && (!a.Sse? ==> forall k :: 0 <= k < |s.sse.strs| ==> s'.sse.strs[k].phase == s.sse.strs[k].phase)
            && (forall k :: |s.sse.strs| <= k < |s'.sse.strs| ==>
                  && k == |s.sse.strs|
                  && a == Sse(Open(s'.sse.strs[k].id))
                  && s'.sse.strs[k] == Stream(s'.sse.strs[k].id, Chan([], false), Opening, [])
                  && s'.loop == s.loop)
  {
    match a
    case Http(e) =>
    case Loop(e) =>
    case Sse(e) =>
    case CloseOther =>
  }

  lemma StepKeeps(s: State, a: Action)
    requires Inv(s) && Step(s, a).Some?
    ensures Inv(Step(s, a).value)
  {
    match a
    case Http(e) =>
    case Loop(e) => LoopKeeps(s, e);
    case Sse(e) => SseKeeps(s, e);
    case CloseOther =>
  }

  lemma {:induction false} RunKeeps(run: seq<Action>)
    requires Run(run).Some?
    ensures Inv(Run(run).value)
  {
    hide Step;
    if run != [] {
      RunKeeps(run[..|run|-1]);
      StepKeeps(Run(run[..|run|-1]).value, run[|run|-1]);
    }
  }

  /** An entry left behind by a finished handler means that the connection is closed. */
  lemma {:induction false} NoDeadEntries(run: seq<Action>, id: string)
    requires Run(run).Some?
    ensures var s := Run(run).value;
            id in s.sse.streams && !s.done ==>
              s.sse.streams[id] < |s.sse.strs| && !s.sse.strs[s.sse.streams[id]].phase.Ended?
  {
    RunKeeps(run);
  }

  // ---------------------------------------------------------------- what one step does to one stream

  /** The step closes the channel of stream `k`. */
  predicate Closes(s: State, a: Action, k: nat) {
    || (a == Loop(CloseEnded) && s.loop == Ending(k))
    || (a.Sse? && a.se.CloseCut? && a.se.k < |s.sse.strs| && s.sse.strs[a.se.k].phase == Cutting(k))
  }

  /** The frame, if any, that the step finds stream `k` for. */
  function ArrivedNow(s: State, a: Action, k: nat): seq<Frame> {
    if a.Loop? && a.le.GetFrame? && s.loop == Reading
       && a.le.frame.id in s.sse.streams && s.sse.streams[a.le.frame.id] == k
    then [a.le.frame] else []
  }

  /** A frame whose delivery is over: kept in the channel, dropped because the channel was full, or
      gone with the panic of its send. */
  datatype Settled = Accepted(frame: Frame) | Dropped(frame: Frame) | Blown(frame: Frame)

  function SettledNow(s: State, a: Action, k: nat): seq<Settled> {
    if a == Loop(PutFrame) && s.loop.Framing? && s.loop.k == k && k < |s.sse.strs|
    then
      if s.sse.strs[k].ch.closed then [Blown(s.loop.frame)]
      else if |s.sse.strs[k].ch.buf| < FRAME_SLOTS then [Accepted(s.loop.frame)]
      else [Dropped(s.loop.frame)]
    else []
  }

  /** The frame between DeliverFrame's lookup and its send. */
  function InFlight(s: State, k: nat): seq<Frame> {
    if s.loop.Framing? && s.loop.k == k then [s.loop.frame] else []
  }

  function Frames(log: seq<Settled>): seq<Frame> {
    seq(|log|, i requires 0 <= i < |log| => log[i].frame)
  }

  function Kept(log: seq<Settled>): seq<Frame> {
    if log == [] then []
    else Kept(log[..|log|-1]) + (if log[|log|-1].Accepted? then [log[|log|-1].frame] else [])
  }

  function Lost(log: seq<Settled>): seq<Frame> {
    if log == [] then []
    else Lost(log[..|log|-1]) + (if log[|log|-1].Dropped? then [log[|log|-1].frame] else [])
  }

  function Panicked(log: seq<Settled>): seq<Frame> {
    if log == [] then []
    else Panicked(log[..|log|-1]) + (if log[|log|-1].Blown? then [log[|log|-1].frame] else [])
  }

  ghost predicate Moves(s: State, a: Action, s': State, k: nat)
    requires k < |s.sse.strs| && k < |s'.sse.strs|
  {
    var r, r' := s.sse.strs[k], s'.sse.strs[k];
    && r'.id == r.id
    && (r'.ch.closed <==> r.ch.closed || Closes(s, a, k))
    && (Closes(s, a, k) ==> !r.ch.closed && !Mapped(s, k))
    && (Mapped(s', k) ==> Mapped(s, k))
    && r'.out + r'.ch.buf == r.out + r.ch.buf + Kept(SettledNow(s, a, k))
    && InFlight(s, k) + ArrivedNow(s, a, k) == Frames(SettledNow(s, a, k)) + InFlight(s', k)
  }

  lemma RelayMoves(s: State, j: nat, k: nat)
    requires Step(s, Sse(Relay(j))).Some? && k < |s.sse.strs|
    ensures k < |Step(s, Sse(Relay(j))).value.sse.strs|
    ensures Moves(s, Sse(Relay(j)), Step(s, Sse(Relay(j))).value, k)
  {
    var r := s.sse.strs[k];
    if j == k {
      assert r.out + [r.ch.buf[0]] + r.ch.buf[1..] == r.out + r.ch.buf;
    }
  }

  lemma CloseCutMoves(s: State, j: nat, k: nat)
    requires Inv(s) && Step(s, Sse(CloseCut(j))).Some? && k < |s.sse.strs|
    ensures var s' := Step(s, Sse(CloseCut(j))).value;
            !Panics(s, Sse(CloseCut(j))) && k < |s'.sse.strs| && Moves(s, Sse(CloseCut(j)), s', k)
  {
    assert CutterSound(s, j);
  }

  lemma SseMoves(s: State, e: SseEvent, k: nat)
    requires Inv(s) && Step(s, Sse(e)).Some? && k < |s.sse.strs|
    ensures k < |Step(s, Sse(e)).value.sse.strs| && Moves(s, Sse(e), Step(s, Sse(e)).value, k)
  {
    match e
    case Relay(j) => RelayMoves(s, j, k);
    case CloseCut(j) => CloseCutMoves(s, j, k);
    case _ =>
  }

  lemma PutFrameMoves(s: State, k: nat)
    requires Step(s, Loop(PutFrame)).Some? && k < |s.sse.strs|
    ensures k < |Step(s, Loop(PutFrame)).value.sse.strs|
    ensures Moves(s, Loop(PutFrame), Step(s, Loop(PutFrame)).value, k)
  {
    var now := SettledNow(s, Loop(PutFrame), k);
    if now != [] {
      assert now[..0] == [];
      var r := s.sse.strs[k];
      assert r.out + (r.ch.buf + [s.loop.frame]) == r.out + r.ch.buf + [s.loop.frame];
    }
  }

  lemma LoopMoves(s: State, e: LoopEvent, k: nat)
    requires Inv(s) && Step(s, Loop(e)).Some? && k < |s.sse.strs|
    ensures k < |Step(s, Loop(e)).value.sse.strs| && Moves(s, Loop(e), Step(s, Loop(e)).value, k)
  {
    match e
    case PutFrame => PutFrameMoves(s, k);
    case _ =>
  }

  lemma StepMoves(s: State, a: Action, k: nat)
    requires Inv(s) && Step(s, a).Some? && k < |s.sse.strs|
    ensures k < |Step(s, a).value.sse.strs| && Moves(s, a, Step(s, a).value, k)
  {
    match a
    case Http(e) =>
    case Loop(e) => LoopMoves(s, e, k);
    case Sse(e) => SseMoves(s, e, k);
    case CloseOther =>
  }
}
