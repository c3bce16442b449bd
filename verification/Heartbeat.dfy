/**
 The heartbeat in real time (registry.go, runReaper and reap; shore_handler.go, the ping case):
 how stale a registered Shore can get, and which Shores are never reaped.
 */
module Heartbeat {
  import opened Wrappers
  import opened Dock

  // ---------------------------------------------------------------- how stale a Shore can get

  /** The time since the last pass of the reaper, or since the start. */
  function SinceReap(run: seq<Action>): nat {
    if run == [] then 0
    else match run[|run|-1]
      case Reap => 0
      case Advance(t) => SinceReap(run[..|run|-1]) + t
      case _ => SinceReap(run[..|run|-1])
  }

  function Age(d: State, c: nat): int
    requires c < |d.conns|
  {
    d.now - d.conns[c].lastPing
  }

  /** The reaper is never late, and no connection takes longer than the threshold from being built to
      being registered. */
  ghost predicate Prompt(run: seq<Action>)
    requires Run(run).Some?
  {
    run != [] ==>
      var before, a := run[..|run|-1], run[|run|-1];
      && Prompt(before)
      && (a.Advance? ==> SinceReap(before) + a.t <= 15 * SECOND)
      && (a.Enter? && a.c < |Run(before).value.conns| ==> Age(Run(before).value, a.c) <= STALE)
  }

  /** One pass of the reaper keeps exactly the entries that are not stale, closes exactly the
      connections of the others, and changes nothing else. */
  lemma ReapExactly(d: State)
    requires Inv(d)
    ensures var d' := ReapAll(d);
            && Step(d, Reap) == Some(d')
            && (forall n :: n in d'.shores <==> n in d.shores && Age(d, d.shores[n]) <= 45 * SECOND)
            && (forall n :: n in d'.shores ==> d'.shores[n] == d.shores[n])
            && |d'.conns| == |d.conns|
            && (forall c :: 0 <= c < |d.conns| ==>
                  d'.conns[c] == if Registered(d, c) && Age(d, c) > 45 * SECOND then Close(d.conns[c]) else d.conns[c])
  {
    assert forall n :: n in d.shores ==> EntrySound(d, n);
    var d' := ReapAll(d);
    forall c | 0 <= c < |d.conns|
      ensures d'.conns[c] == if Registered(d, c) && Age(d, c) > STALE then Close(d.conns[c]) else d.conns[c]
    {
      if Registered(d, c) && Age(d, c) > STALE {
        assert d.shores[d.conns[c].name] in Reaped(d);
      }
    }
  }

  predicate Fresh(d: State, n: string, limit: int)
    requires n in d.shores && d.shores[n] < |d.conns|
  {
    Age(d, d.shores[n]) <= limit
  }

  lemma FreshStep(d: State, a: Action, n: string, elapsed: int)
    requires Inv(d) && Step(d, a).Some? && Inv(Step(d, a).value) && elapsed >= 0
    requires n in Step(d, a).value.shores
    requires n in d.shores ==> EntrySound(d, n) && Fresh(d, n, STALE + elapsed)
    requires a.Enter? && a.c < |d.conns| ==> Age(d, a.c) <= STALE
    ensures EntrySound(Step(d, a).value, n)
    ensures Fresh(Step(d, a).value, n, STALE + (if a == Reap then 0 else if a.Advance? then elapsed + a.t else elapsed))
  {
    hide Step, Inv;
    var d' := Step(d, a).value;
    StepMovesShores(d, a);
    EntryHolds(d', n);
    var c := d'.shores[n];
    if a.Enter? && a.c == c {
      RegisterSucceeds(d, c);
    } else if a == Reap {
      ReapSparesFresh(d, n);
      ReapKeepsTheFresh(d, n);
      StepMovesConn(d, a, c);
    } else {
      StepMovesConn(d, a, c);
    }
  }

  lemma EntryHolds(d: State, n: string)
    requires Inv(d) && n in d.shores
    ensures EntrySound(d, n)
  {
  }

  lemma ReapKeepsTheFresh(d: State, n: string)
    requires Inv(d) && n in ReapAll(d).shores
    ensures n in d.shores && d.shores[n] < |d.conns| && Age(d, d.shores[n]) <= STALE
  {
    assert EntrySound(d, n);
  }

  /** With a punctual reaper a registered Shore has pinged within 60 s at every moment, and within 45 s
      right after each pass of the reaper. */
  lemma {:induction false} PingAgeBounded(run: seq<Action>, n: string)
    requires Run(run).Some? && Prompt(run) && n in Run(run).value.shores
    ensures var d := Run(run).value;
            && d.shores[n] < |d.conns|
            && Age(d, d.shores[n]) <= STALE + SinceReap(run)
            && SinceReap(run) <= TICK
            && Age(d, d.shores[n]) <= 60 * SECOND
            && (run[|run|-1] == Reap ==> Age(d, d.shores[n]) <= 45 * SECOND)
  {
    hide Step, Inv;
    var before, a := run[..|run|-1], run[|run|-1];
    RunKeeps(before);
    RunKeeps(run);
    ReapSoon(run);
    if n in Run(before).value.shores {
      EntryHolds(Run(before).value, n);
      PingAgeBounded(before, n);
    }
    FreshStep(Run(before).value, a, n, SinceReap(before));
  }

  lemma {:induction false} ReapSoon(run: seq<Action>)
    requires Run(run).Some? && Prompt(run)
    ensures SinceReap(run) <= TICK
  {
    hide Step;
    if run != [] {
      ReapSoon(run[..|run|-1]);
    }
  }

  // ---------------------------------------------------------------- who is never reaped

  // The clock of a run, and when a connection was last heard of, its last ping or its building: read off
  // the actions of the run alone.

  function Clock(run: seq<Action>): nat {
    if run == [] then 0
    else Clock(run[..|run|-1]) + (if run[|run|-1].Advance? then run[|run|-1].t else 0)
  }

  function Builds(run: seq<Action>): nat {
    if run == [] then 0
    else Builds(run[..|run|-1]) + (if run[|run|-1].Build? then 1 else 0)
  }

  /** Connection `c` is the `c`-th to be built; when that was. */
  function BuildTime(run: seq<Action>, c: nat): nat {
    if run == [] then 0
    else if run[|run|-1].Build? && Builds(run[..|run|-1]) == c then Clock(run[..|run|-1])
    else BuildTime(run[..|run|-1], c)
  }

  function LastHeard(run: seq<Action>, c: nat): nat {
    if run == [] then 0
    else
      var before, a := run[..|run|-1], run[|run|-1];
      if (a.Ping? && a.c == c) || (a.Build? && Builds(before) == c) then Clock(before)
      else LastHeard(before, c)
  }

  /** The connection is never silent for more than the threshold, reckoned on the run alone. */
  predicate Punctual(run: seq<Action>, c: nat) {
    run != [] ==>
      && Punctual(run[..|run|-1], c)
      && (c < Builds(run) ==> Clock(run) - LastHeard(run, c) <= STALE)
  }

  lemma {:induction false} HeardMatches(run: seq<Action>, c: nat)
    requires Run(run).Some?
    ensures Run(run).value.now == Clock(run) && |Run(run).value.conns| == Builds(run)
    ensures c < Builds(run) ==> Run(run).value.conns[c].lastPing == LastHeard(run, c)
  {
    hide Step, Inv;
    if run != [] {
      var before, a := run[..|run|-1], run[|run|-1];
      HeardMatches(before, c);
      RunKeeps(before);
      StepMovesShores(Run(before).value, a);
      BuildAddsOne(Run(before).value, a);
      if c < |Run(before).value.conns| {
        StepMovesConn(Run(before).value, a, c);
      }
    }
  }

  lemma BuildAddsOne(d: State, a: Action)
    requires Step(d, a).Some?
    ensures |Step(d, a).value.conns| == |d.conns| + (if a.Build? then 1 else 0)
  {
    hide T.Step;
  }

  lemma PunctualIsFresh(run: seq<Action>, c: nat)
    requires Run(run).Some? && Punctual(run, c) && c < |Run(run).value.conns|
    ensures Age(Run(run).value, c) <= STALE
  {
    hide Step;
    HeardMatches(run, c);
  }

  lemma {:induction false} PunctualPrefix(run: seq<Action>, c: nat, p: nat)
    requires Punctual(run, c) && p <= |run|
    ensures Punctual(run[..p], c)
    decreases |run|
  {
    if p < |run| {
      PunctualPrefix(run[..|run|-1], c, p);
      assert run[..|run|-1][..p] == run[..p];
    } else {
      assert run[..p] == run;
    }
  }

  /** A Shore whose silences stay within 45 s is never reaped: every pass of the reaper, at any point of
      any run, leaves its entry and its connection as they were. */
  lemma {:induction false} PunctualIsNeverReaped(run: seq<Action>, c: nat, p: nat)
    requires Run(run).Some? && Punctual(run, c)
    requires p < |run| && run[p] == Reap && c < |At(run, p).conns|
    ensures c < |At(run, p + 1).conns|
    ensures At(run, p + 1).conns[c] == At(run, p).conns[c]
    ensures Registered(At(run, p), c) <==> Registered(At(run, p + 1), c)
  {
    hide Step, Inv;
    PunctualPrefix(run, c, p);
    RunPrefix(run, p);
    PunctualIsFresh(run[..p], c);
    AtStep(run, p);
    ReapExactly(At(run, p));
  }

  // ---------------------------------------------------------------- the ping schedule

  /** The heartbeat interval of a Shore (docs/hermit-federation-architecture.md). */
  const PING_EVERY: int := 15 * SECOND

  /** When the `k`-th ping of connection `c` is due, reckoned from its building. */
  function Due(run: seq<Action>, c: nat, k: nat): nat {
    BuildTime(run, c) + k * PING_EVERY
  }

  /** A ping of connection `c` was handled when the `k`-th was due. */
  predicate HeardAt(run: seq<Action>, c: nat, k: nat, i: nat) {
    i < |run| && run[i].Ping? && run[i].c == c && Clock(run[..i]) == Due(run, c, k)
  }

  ghost predicate Heard(run: seq<Action>, c: nat, k: nat) {
    exists i: nat :: HeardAt(run, c, k, i)
  }

  /** Of the three pings after the `k`-th, not all were lost. */
  ghost predicate OneOfThree(run: seq<Action>, c: nat, k: nat) {
    Heard(run, c, k + 1) || Heard(run, c, k + 2) || Heard(run, c, k + 3)
  }

  /** Pings are sent when they are due, and any two in a row may be lost, but not three: the run has
      not gone past a third due time in a row without any of the three pings. */
  ghost predicate OnSchedule(run: seq<Action>, c: nat) {
    forall k: nat :: Clock(run) > Due(run, c, k + 3) ==> OneOfThree(run, c, k)
  }

  /** The ping of those three that was heard. */
  lemma NextHeard(run: seq<Action>, c: nat, k: nat) returns (next: nat, i: nat)
    requires OneOfThree(run, c, k)
    ensures k + 1 <= next <= k + 3 && HeardAt(run, c, next, i)
  {
    hide HeardAt;
    next := if Heard(run, c, k + 1) then k + 1 else if Heard(run, c, k + 2) then k + 2 else k + 3;
    assert Heard(run, c, next);
    i :| HeardAt(run, c, next, i);
  }

  /** A ping counts from then on. */
  lemma {:induction false} HeardSince(run: seq<Action>, c: nat, i: nat)
    requires i < |run| && run[i].Ping? && run[i].c == c
    ensures Clock(run[..i]) <= LastHeard(run, c)
  {
    var before := run[..|run|-1];
    if i < |before| {
      HeardSince(before, c, i);
      assert before[..i] == run[..i];
      HeardInThePast(before, c);
    }
  }

  lemma {:induction false} HeardInThePast(run: seq<Action>, c: nat)
    ensures LastHeard(run, c) <= Clock(run)
  {
    if run != [] {
      HeardInThePast(run[..|run|-1], c);
    }
  }

  lemma {:induction false} BuiltBeforeHeard(run: seq<Action>, c: nat)
    requires c < Builds(run)
    ensures BuildTime(run, c) <= LastHeard(run, c)
  {
    var before, a := run[..|run|-1], run[|run|-1];
    if c < Builds(before) {
      BuiltBeforeHeard(before, c);
      HeardInThePast(before, c);
    }
  }

  /** Losing at most two pings in a row keeps every silence within the threshold: the worst case is a
      silence of exactly 45 s, from one ping to the third after it. */
  lemma OnScheduleNow(run: seq<Action>, c: nat)
    requires OnSchedule(run, c) && c < Builds(run)
    ensures Clock(run) - LastHeard(run, c) <= STALE
  {
    BuiltBeforeHeard(run, c);
    var built, heard := BuildTime(run, c), LastHeard(run, c);
    var k: nat := (heard - built) / PING_EVERY;
    if Clock(run) - heard > STALE {
      assert built + k * PING_EVERY <= heard < built + (k + 1) * PING_EVERY;
      assert Due(run, c, k + 3) <= heard + STALE;
      assert OneOfThree(run, c, k);
      var next, i := NextHeard(run, c, k);
      assert Due(run, c, next) >= Due(run, c, k + 1) > heard;
      HeardSince(run, c, i);
    }
  }

  /** The schedule kept by a run was kept by every shorter one. */
  lemma OnScheduleBefore(before: seq<Action>, a: Action, c: nat)
    requires OnSchedule(before + [a], c) && c < Builds(before)
    ensures OnSchedule(before, c)
  {
    var run := before + [a];
    assert run[..|before|] == before;
    forall k: nat | Clock(before) > Due(before, c, k + 3) ensures OneOfThree(before, c, k) {
      assert Due(run, c, k + 3) == Due(before, c, k + 3);
      assert OneOfThree(run, c, k);
      var next, i := NextHeard(run, c, k);
      assert Due(run, c, next) <= Due(run, c, k + 3);
      assert i < |before| && before[..i] == run[..i];
      assert HeardAt(before, c, next, i);
    }
  }

  lemma {:induction false} ScheduleIsPunctual(run: seq<Action>, c: nat)
    requires OnSchedule(run, c)
    ensures Punctual(run, c)
  {
    if run != [] {
      var before, a := run[..|run|-1], run[|run|-1];
      assert run == before + [a];
      if c < Builds(before) {
        OnScheduleBefore(before, a, c);
        ScheduleIsPunctual(before, c);
      } else {
        NotBuiltYet(before, c);
      }
      if c < Builds(run) {
        OnScheduleNow(run, c);
      }
    }
  }

  lemma {:induction false} NotBuiltYet(run: seq<Action>, c: nat)
    requires Builds(run) <= c
    ensures Punctual(run, c)
  {
    if run != [] {
      NotBuiltYet(run[..|run|-1], c);
    }
  }

  /** A Shore that pings every 15 s and loses at most two pings in a row is never reaped. */
  lemma {:induction false} TwoLostPingsAreSurvived(run: seq<Action>, c: nat, p: nat)
    requires Run(run).Some? && OnSchedule(run, c)
    requires p < |run| && run[p] == Reap && c < |At(run, p).conns|
    ensures c < |At(run, p + 1).conns|
    ensures At(run, p + 1).conns[c] == At(run, p).conns[c]
    ensures Registered(At(run, p), c) <==> Registered(At(run, p + 1), c)
  {
    hide Step, Inv, OnSchedule, Punctual;
    ScheduleIsPunctual(run, c);
    PunctualIsNeverReaped(run, c, p);
  }

  /** Two pings lost is the limit: a registered Shore silent for exactly 45 s survives a pass of the
      reaper, and one a nanosecond later removes and closes it. */
  lemma {:induction false} BoundaryIsStrict(run: seq<Action>, c: nat)
    requires Run(run).Some? && c < |Run(run).value.conns| && Registered(Run(run).value, c)
    requires Clock(run) - LastHeard(run, c) == 45 * SECOND
    ensures Run(run + [Reap]).Some? && c < |Run(run + [Reap]).value.conns|
    ensures Registered(Run(run + [Reap]).value, c) && !Run(run + [Reap]).value.conns[c].tunnel.done
    ensures Run(run + [Advance(1), Reap]).Some? && c < |Run(run + [Advance(1), Reap]).value.conns|
    ensures !Registered(Run(run + [Advance(1), Reap]).value, c)
    ensures Run(run + [Advance(1), Reap]).value.conns[c].tunnel.done
  {
    hide Step, Run, Inv;
    var d := Run(run).value;
    RunKeeps(run);
    HeardMatches(run, c);
    ReapExactly(d);
    RunSnoc(run, Reap);
    EntryHolds(d, d.conns[c].name);
    Advances(d);
    RunSnoc(run, Advance(1));
    RunKeeps(run + [Advance(1)]);
    ReapExactly(d.(now := d.now + 1));
    RunSnoc(run + [Advance(1)], Reap);
    assert run + [Advance(1)] + [Reap] == run + [Advance(1), Reap];
  }

  lemma Advances(d: State)
    ensures Step(d, Advance(1)) == Some(d.(now := d.now + 1))
  {
  }
}
