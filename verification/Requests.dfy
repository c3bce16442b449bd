/**
 Requests over one connection: correlation of responses, loss-freedom, and what becomes of every
 table entry, for every message sequence from the Shore and every interleaving.
 */
module Requests {
  import opened Wrappers
  import opened Tunnel

  /** Nothing has been sent to this request's channel. */
  predicate Unsent(q: Request) {
    q.ch.buf == [] && !(q.phase.Left? && q.phase.outcome.Answered?)
  }

  /** What holds of a single request, whoever the Shore is and whatever it sent. */
  predicate Sound(q: Request, done: bool) {
    && !q.ch.closed
    && |q.ch.buf| <= RESPONSE_SLOTS
    && (forall i :: 0 <= i < |q.ch.buf| ==> q.ch.buf[i].id == q.id)
    && (q.phase.Left? ==>
          && q.phase.outcome != ChannelClosed
          && (q.phase.outcome.Answered? ==> q.ch.buf == [] && q.phase.outcome.resp.id == q.id)
          && (q.phase.outcome.ShoreDone? ==> done))
  }

  /** A table entry leads to the request with that id, which has been sent nothing; its handler can
      have finished only by seeing `done`. */
  predicate EntrySound(s: State, id: string)
    requires id in s.http.pending
  {
    var h := s.http.pending[id];
    && h < |s.http.reqs|
    && s.http.reqs[h].id == id
    && Unsent(s.http.reqs[h])
    && !(s.loop.Answering? && s.loop.h == h)
    && (s.http.reqs[h].phase.Left? ==> s.http.reqs[h].phase.outcome == ShoreDone)
  }

  predicate LoopSound(s: State) {
    s.loop.Answering? ==>
      && s.loop.h < |s.http.reqs|
      && s.http.reqs[s.loop.h].id == s.loop.resp.id
      && Unsent(s.http.reqs[s.loop.h])
  }

  ghost predicate Inv(s: State) {
    && (forall h :: 0 <= h < |s.http.reqs| ==> Sound(s.http.reqs[h], s.done))
    && (forall id :: id in s.http.pending ==> EntrySound(s, id))
    && LoopSound(s)
  }

  lemma HttpKeepsRequests(s: State, e: HttpEvent, h: nat)
    requires Inv(s) && Step(s, Http(e)).Some? && h < |Step(s, Http(e)).value.http.reqs|
    ensures Sound(Step(s, Http(e)).value.http.reqs[h], s.done)
  {
  }

  lemma HttpKeepsEntries(s: State, e: HttpEvent, id: string)
    requires Inv(s) && Step(s, Http(e)).Some? && id in Step(s, Http(e)).value.http.pending
    ensures EntrySound(Step(s, Http(e)).value, id)
  {
  }

  lemma HttpKeeps(s: State, e: HttpEvent)
    requires Inv(s) && Step(s, Http(e)).Some?
    ensures Inv(Step(s, Http(e)).value)
  {
    var s' := Step(s, Http(e)).value;
    forall h | 0 <= h < |s'.http.reqs| ensures Sound(s'.http.reqs[h], s'.done) {
      HttpKeepsRequests(s, e, h);
    }
    forall id | id in s'.http.pending ensures EntrySound(s', id) {
      HttpKeepsEntries(s, e, id);
    }
  }

  lemma LoopKeepsRequests(s: State, e: LoopEvent, h: nat)
    requires Inv(s) && Step(s, Loop(e)).Some? && h < |Step(s, Loop(e)).value.http.reqs|
    ensures Sound(Step(s, Loop(e)).value.http.reqs[h], Step(s, Loop(e)).value.done)
  {
  }

  lemma LoopKeepsEntries(s: State, e: LoopEvent, id: string)
    requires Inv(s) && Step(s, Loop(e)).Some? && id in Step(s, Loop(e)).value.http.pending
    ensures EntrySound(Step(s, Loop(e)).value, id)
  {
  }

  lemma LoopKeeps(s: State, e: LoopEvent)
    requires Inv(s) && Step(s, Loop(e)).Some?
    ensures Inv(Step(s, Loop(e)).value)
  {
    var s' := Step(s, Loop(e)).value;
    forall h | 0 <= h < |s'.http.reqs| ensures Sound(s'.http.reqs[h], s'.done) {
      LoopKeepsRequests(s, e, h);
    }
    forall id | id in s'.http.pending ensures EntrySound(s', id) {
      LoopKeepsEntries(s, e, id);
    }
  }

  lemma StepKeeps(s: State, a: Action)
    requires Inv(s) && Step(s, a).Some?
    ensures Inv(Step(s, a).value)
  {
    match a
    case Http(e) => HttpKeeps(s, e);
    case Loop(e) => LoopKeeps(s, e);
    case Sse(e) =>
    case CloseOther =>
  }

  lemma {:induction false} RunKeeps(run: seq<Action>)
    requires Run(run).Some?
    ensures Inv(Run(run).value)
  {
    hide Step;
    if run != [] {
      RunKeeps(run[..|run|-1]);
      StepKeeps(Run(run[..|run|-1]).value, run[|run|-1]);
    }
  }

  /** Requests are never removed or renamed; only Issue adds one. */
  lemma RequestsGrow(s: State, a: Action)
    requires Step(s, a).Some?
    ensures var s' := Step(s, a).value;
            && |s.http.reqs| <= |s'.http.reqs|
            && (forall k :: 0 <= k < |s.http.reqs| ==> s'.http.reqs[k].id == s.http.reqs[k].id)
            && (forall k :: |s.http.reqs| <= k < |s'.http.reqs| ==>
                  a == Http(Issue(s'.http.reqs[k].id)) && k == |s.http.reqs|)
  {
    match a
    case Http(e) =>
    case Loop(e) =>
    case Sse(e) =>
    case CloseOther =>
  }

  // ---------------------------------------------------------------- what is delivered

  /** How often the run has sent to the channel of request `h`. */
  ghost function Sends(run: seq<Action>, h: nat): nat
    requires Run(run).Some?
  {
    if run == [] then 0
    else
      var before := run[..|run|-1];
      var s := Run(before).value;
      Sends(before, h) +
      (if run[|run|-1] == Loop(PutResponse) && s.loop.Answering? && s.loop.h == h then 1 else 0)
  }

  /** The position in the run at which request `h` entered the table. */
  ghost function IssuedAt(run: seq<Action>, h: nat): (p: nat)
    requires Run(run).Some? && h < |Run(run).value.http.reqs|
    ensures p < |run|
    ensures run[p] == Http(Issue(Run(run).value.http.reqs[h].id))
  {
    var before := run[..|run|-1];
    RequestsGrow(Run(before).value, run[|run|-1]);
    if h < |Run(before).value.http.reqs| then IssuedAt(before, h) else |run| - 1
  }

  /** The first response carrying `id` among some wire events; it looks at no state. */
  function FirstResponse(run: seq<Action>, id: string): Option<Response> {
    if run == [] then None
    else if run[0].Loop? && run[0].le.GetResponse? && run[0].le.resp.id == id then Some(run[0].le.resp)
    else FirstResponse(run[1..], id)
  }

  lemma {:induction false} FirstResponseSnoc(run: seq<Action>, a: Action, id: string)
    ensures FirstResponse(run + [a], id) ==
            if FirstResponse(run, id).Some? then FirstResponse(run, id) else FirstResponse([a], id)
  {
    if run == [] {
      assert run + [a] == [a];
    } else {
      assert (run + [a])[1..] == run[1..] + [a];
      FirstResponseSnoc(run[1..], a, id);
    }
  }

  /** The wire events since request `h` entered the table. */
  ghost function SinceIssue(run: seq<Action>, h: nat): seq<Action>
    requires Run(run).Some? && h < |Run(run).value.http.reqs|
  {
    run[IssuedAt(run, h)+1..]
  }

  /** The response that reached, or is about to reach, request `h`. */
  function Reached(s: State, h: nat): Option<Response>
    requires h < |s.http.reqs|
  {
    var q := s.http.reqs[h];
    if s.loop.Answering? && s.loop.h == h then Some(s.loop.resp)
    else if q.ch.buf != [] then Some(q.ch.buf[0])
    else if q.phase.Left? && q.phase.outcome.Answered? then Some(q.phase.outcome.resp)
    else None
  }

  predicate InTable(s: State, h: nat)
    requires h < |s.http.reqs|
  {
    var id := s.http.reqs[h].id;
    id in s.http.pending && s.http.pending[id] == h
  }

  /** The part of the invariant that concerns request `h`. */
  predicate InvAt(s: State, h: nat)
    requires h < |s.http.reqs|
  {
    && Sound(s.http.reqs[h], s.done)
    && LoopSound(s)
    && (InTable(s, h) ==> EntrySound(s, s.http.reqs[h].id))
  }

  /** What a step may do to request `h`: it is taken from the table by a response with its id, which
      it then holds; what has reached it stays. */
  ghost predicate Progresses(s: State, a: Action, s': State, h: nat)
    requires h < |s.http.reqs| && h < |s'.http.reqs|
  {
    && (InTable(s', h) ==> InTable(s, h))
    && (Reached(s, h).Some? ==> Reached(s', h) == Reached(s, h))
    && (InTable(s', h) ==> !(a.Loop? && a.le.GetResponse? && a.le.resp.id == s.http.reqs[h].id))
    && (Reached(s, h).None? && Reached(s', h).Some? ==>
          && InTable(s, h)
          && a == Loop(GetResponse(Reached(s', h).value))
          && Reached(s', h).value.id == s.http.reqs[h].id)
    && (Unsent(s'.http.reqs[h]) <==> Unsent(s.http.reqs[h]) && !(a == Loop(PutResponse) && s.loop.Answering? && s.loop.h == h))
  }

  lemma HttpProgress(s: State, e: HttpEvent, h: nat)
    requires Step(s, Http(e)).Some? && h < |s.http.reqs| && InvAt(s, h)
    ensures h < |Step(s, Http(e)).value.http.reqs| && Progresses(s, Http(e), Step(s, Http(e)).value, h)
  {
  }

  lemma LoopProgress(s: State, e: LoopEvent, h: nat)
    requires Step(s, Loop(e)).Some? && h < |s.http.reqs| && InvAt(s, h)
    requires forall id :: id in s.http.pending ==> EntrySound(s, id)
    ensures h < |Step(s, Loop(e)).value.http.reqs| && Progresses(s, Loop(e), Step(s, Loop(e)).value, h)
  {
  }

  lemma StepProgress(s: State, a: Action, h: nat)
    requires Inv(s) && Step(s, a).Some? && h < |s.http.reqs|
    ensures h < |Step(s, a).value.http.reqs| && Progresses(s, a, Step(s, a).value, h)
  {
    match a
    case Http(e) => HttpProgress(s, e, h);
    case Loop(e) => LoopProgress(s, e, h);
    case Sse(e) =>
    case CloseOther =>
  }

  /** Waiting in the table with no response so far, or holding the first one. */
  predicate Holds(s: State, h: nat, first: Option<Response>)
    requires h < |s.http.reqs|
  {
    && (InTable(s, h) ==> first == None && Reached(s, h) == None)
    && (Reached(s, h).Some? ==> first == Reached(s, h))
  }

  lemma HoldsStep(s: State, a: Action, s': State, h: nat, since: seq<Action>)
    requires h < |s.http.reqs| && h < |s'.http.reqs| && s'.http.reqs[h].id == s.http.reqs[h].id
    requires Progresses(s, a, s', h) && (InTable(s', h) ==> Unsent(s'.http.reqs[h]) && !(s'.loop.Answering? && s'.loop.h == h))
    requires Holds(s, h, FirstResponse(since, s.http.reqs[h].id))
    ensures Holds(s', h, FirstResponse(since + [a], s.http.reqs[h].id))
  {
    FirstResponseSnoc(since, a, s.http.reqs[h].id);
    assert [a][1..] == [];
  }

  lemma HoldsInRun(s: State, a: Action, h: nat, since: seq<Action>)
    requires Inv(s) && Step(s, a).Some? && h < |s.http.reqs|
    requires Holds(s, h, FirstResponse(since, s.http.reqs[h].id))
    ensures h < |Step(s, a).value.http.reqs|
    ensures Holds(Step(s, a).value, h, FirstResponse(since + [a], s.http.reqs[h].id))
  {
    hide Step;
    RequestsGrow(s, a);
    StepProgress(s, a, h);
    StepKeeps(s, a);
    HoldsStep(s, a, Step(s, a).value, h, since);
  }

  lemma NewRequest(s: State, a: Action, h: nat)
    requires Inv(s) && Step(s, a).Some? && |s.http.reqs| <= h < |Step(s, a).value.http.reqs|
    ensures Reached(Step(s, a).value, h) == None && Unsent(Step(s, a).value.http.reqs[h])
  {
    RequestsGrow(s, a);
  }

  /** A request waiting in the table has had no response; the one it gets, if any, is the first
      response with its id to arrive after it was issued, however many more the Shore sends. */
  lemma {:induction false} FirstResponseWins(run: seq<Action>, h: nat)
    requires Run(run).Some? && h < |Run(run).value.http.reqs|
    ensures Holds(Run(run).value, h, FirstResponse(SinceIssue(run, h), Run(run).value.http.reqs[h].id))
  {
    hide Step;
    var before, a := run[..|run|-1], run[|run|-1];
    var s := Run(before).value;
    RunKeeps(before);
    RequestsGrow(s, a);
    if h < |s.http.reqs| {
      FirstResponseWins(before, h);
      HoldsInRun(s, a, h, SinceIssue(before, h));
      assert SinceIssue(run, h) == SinceIssue(before, h) + [a];
    } else {
      NewRequest(s, a, h);
      assert SinceIssue(run, h) == [];
    }
  }

  lemma {:induction false} SendsMatch(run: seq<Action>, h: nat)
    requires Run(run).Some?
    ensures var reqs := Run(run).value.http.reqs;
            Sends(run, h) == if h < |reqs| && !Unsent(reqs[h]) then 1 else 0
  {
    hide Step;
    if run != [] {
      var before, a := run[..|run|-1], run[|run|-1];
      SendsMatch(before, h);
      RunKeeps(before);
      RequestsGrow(Run(before).value, a);
      if h < |Run(before).value.http.reqs| {
        StepProgress(Run(before).value, a, h);
      } else if h < |Run(run).value.http.reqs| {
        NewRequest(Run(before).value, a, h);
      }
    }
  }

  /** Correlation and loss-freedom.  A request's channel and its handler only ever see responses
      with its own id; the channel is sent to at most once, exactly when something was delivered; a
      send finds it open and empty, so the `default` arm never discards a matched response; and the
      `!ok` arm of `routeToShore` cannot be taken. */
  lemma {:induction false} ResponsesCorrelate(run: seq<Action>, h: nat)
    requires Run(run).Some? && h < |Run(run).value.http.reqs|
    ensures var s := Run(run).value;
            var q := s.http.reqs[h];
            && (forall i :: 0 <= i < |q.ch.buf| ==> q.ch.buf[i].id == q.id)
            && (q.phase.Left? && q.phase.outcome.Answered? ==> q.phase.outcome.resp.id == q.id)
            && Sends(run, h) <= 1
            && (Sends(run, h) == 1 <==> q.ch.buf != [] || (q.phase.Left? && q.phase.outcome.Answered?))
            && Step(s, Http(TakeClosed(h))) == None
            && (s.loop.Answering? && s.loop.h == h ==>
                  && !Panics(s, Loop(PutResponse))
                  && Step(s, Loop(PutResponse)).Some?
                  && Step(s, Loop(PutResponse)).value.http.reqs[h] == q.(ch := Chan([s.loop.resp], false)))
  {
    RunKeeps(run);
    SendsMatch(run, h);
  }

  // ---------------------------------------------------------------- in-flight accounting

  /** What has become of a request's table entry. */
  datatype Fate =
    | Unissued
    | Pending
    | InDelivery    // taken out by DeliverResponse, not yet sent
    | Delivered
    | Withdrawn     // deleted by its own handler after a failed write or a timeout
    | Displaced     // overwritten or deleted by another handler using the same id

  /** The next fate of entry `h`, from the action alone and the ids of the requests involved. */
  function NextFate(reqs: seq<Request>, fate: Fate, a: Action, h: nat): Fate {
    match a
    case Http(Issue(id)) =>
      if h == |reqs| then Pending
      else if fate == Pending && h < |reqs| && reqs[h].id == id then Displaced else fate
    case Http(Drop(k)) => AfterDelete(reqs, fate, k, h)
    case Http(Cancel(k)) => AfterDelete(reqs, fate, k, h)
    case Loop(GetResponse(resp)) =>
      if fate == Pending && h < |reqs| && reqs[h].id == resp.id then InDelivery else fate
    case Loop(PutResponse) =>
      if fate == InDelivery then Delivered else fate
    case _ => fate
  }

  /** Handler `k` deletes the entry under its id. */
  function AfterDelete(reqs: seq<Request>, fate: Fate, k: nat, h: nat): Fate {
    if fate == Pending && h < |reqs| && k < |reqs| && reqs[h].id == reqs[k].id
    then (if k == h then Withdrawn else Displaced) else fate
  }

  /** The history of an entry, read off the actions that touch the table. */
  ghost function FateOf(run: seq<Action>, h: nat): Fate
    requires Run(run).Some?
  {
    if run == [] then Unissued
    else
      var before := run[..|run|-1];
      NextFate(Run(before).value.http.reqs, FateOf(before, h), run[|run|-1], h)
  }

  predicate DistinctRequests(s: State) {
    forall i, j :: 0 <= i < j < |s.http.reqs| ==> s.http.reqs[i].id != s.http.reqs[j].id
  }

  predicate FateFits(s: State, h: nat, fate: Fate) {
    if h >= |s.http.reqs| then fate == Unissued
    else
      var q := s.http.reqs[h];
      && fate != Unissued
      && (fate == Pending <==> InTable(s, h))
      && (fate == InDelivery <==> s.loop.Answering? && s.loop.h == h)
      && (fate == Delivered <==> !Unsent(q))
      && (fate == Withdrawn ==> q.phase == Left(SendError) || q.phase == Left(Timeout))
      && (fate == Displaced ==> exists k :: 0 <= k < |s.http.reqs| && k != h && s.http.reqs[k].id == q.id)
  }

  lemma FateHttp(s: State, e: HttpEvent, h: nat, fate: Fate)
    requires Step(s, Http(e)).Some? && h < |s.http.reqs| && InvAt(s, h) && FateFits(s, h, fate)
    ensures FateFits(Step(s, Http(e)).value, h, NextFate(s.http.reqs, fate, Http(e), h))
  {
    var s' := Step(s, Http(e)).value;
    RequestsGrow(s, Http(e));
    match e
    case Issue(id) => assert s'.http.reqs[|s.http.reqs|].id == id;
    case Drop(k) => assert s'.http.reqs[k].id == s.http.reqs[k].id;
    case Cancel(k) => assert s'.http.reqs[k].id == s.http.reqs[k].id;
    case _ =>
  }

  lemma FateLoop(s: State, e: LoopEvent, h: nat, fate: Fate)
    requires Step(s, Loop(e)).Some? && h < |s.http.reqs| && InvAt(s, h) && FateFits(s, h, fate)
    requires forall id :: id in s.http.pending ==> EntrySound(s, id)
    ensures FateFits(Step(s, Loop(e)).value, h, NextFate(s.http.reqs, fate, Loop(e), h))
  {
    LoopProgress(s, e, h);
    RequestsGrow(s, Loop(e));
  }

  lemma FateStep(s: State, a: Action, h: nat, fate: Fate)
    requires Inv(s) && Step(s, a).Some? && FateFits(s, h, fate)
    ensures FateFits(Step(s, a).value, h, NextFate(s.http.reqs, fate, a, h))
  {
    RequestsGrow(s, a);
    if h < |s.http.reqs| {
      match a
      case Http(e) => FateHttp(s, e, h, fate);
      case Loop(e) => FateLoop(s, e, h, fate);
      case Sse(e) =>
      case CloseOther =>
    } else if h < |Step(s, a).value.http.reqs| {
      NewRequest(s, a, h);
    }
  }

  /** Every issued request is in exactly one of the states of `Fate`: the first four are what the
      shared state shows, the others the history.  With distinct ids no entry is ever displaced, so
      an entry is pending, being delivered, delivered, or was withdrawn by its own handler. */
  lemma {:induction false} EveryRequestAccounted(run: seq<Action>, h: nat)
    requires Run(run).Some?
    ensures FateFits(Run(run).value, h, FateOf(run, h))
    ensures DistinctRequests(Run(run).value) ==> FateOf(run, h) != Displaced
  {
    hide Step;
    if run != [] {
      var before := run[..|run|-1];
      RunKeeps(before);
      EveryRequestAccounted(before, h);
      FateStep(Run(before).value, run[|run|-1], h, FateOf(before, h));
    }
  }

  /** An entry left behind by a finished handler means that the connection is closed. */
  lemma {:induction false} NoDeadEntries(run: seq<Action>, id: string)
    requires Run(run).Some?
    ensures var s := Run(run).value;
            id in s.http.pending && !s.done ==>
              && s.http.pending[id] < |s.http.reqs|
              && !s.http.reqs[s.http.pending[id]].phase.Left?
  {
    RunKeeps(run);
  }
}
