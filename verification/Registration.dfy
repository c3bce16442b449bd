/**
 Which connections can be found in the registry.  `Unregister` deletes by name, not by connection,
 so a late cleanup of an old connection can remove a newer one of the same name.  The exact condition
 for that is proved, with a run in which it happens.
 */
module Registration {
  import opened Wrappers
  import opened Dock
  import T = Tunnel

  function GetByOwner(d: State, owner: string, name: string): Option<nat> {
    if name in d.shores && d.shores[name] < |d.conns| && d.conns[d.shores[name]].owner == owner
    then Some(d.shores[name]) else None
  }

  /** No closed Shore is routable: in every run, whatever `GetByOwner` returns is registered under its
      own name, belongs to the asking user, is open, and its handler has not yet run its deferred
      Unregister; and nothing that meets this under its own name is refused to its owner. */
  lemma {:induction false} RoutableIsOpen(run: seq<Action>, owner: string, name: string)
    requires Run(run).Some?
    ensures var d := Run(run).value;
            && (GetByOwner(d, owner, name).Some? ==>
                  var conn := d.conns[GetByOwner(d, owner, name).value];
                  conn.name == name && conn.owner == owner && !conn.tunnel.done && Serving(conn))
            && (name in d.shores ==>
                  && d.shores[name] < |d.conns|
                  && GetByOwner(d, d.conns[d.shores[name]].owner, name) == Some(d.shores[name]))
  {
    RunKeeps(run);
    if name in Run(run).value.shores {
      assert EntrySound(Run(run).value, name);
    }
  }

  /** Registering under a name closes the connection that had it, if there is one, and puts the new one
      in its place; every other connection and every other name stays as it was. */
  lemma {:induction false} ReplacedIsClosed(run: seq<Action>, c: nat, b: nat, name: string)
    requires Run(run).Some? && c < |Run(run).value.conns| && Run(run).value.conns[c].tunnel.loop.Starting?
    requires b < |Run(run).value.conns| && b != c
    ensures Run(run + [Enter(c)]).Some?
    ensures var d, d' := Run(run).value, Run(run + [Enter(c)]).value;
            && |d'.conns| == |d.conns|
            && Registered(d', c) && !d'.conns[c].tunnel.done
            && d'.conns[b] == d.conns[b].(tunnel := d.conns[b].tunnel.(done :=
                 d.conns[b].tunnel.done || (Registered(d, b) && d.conns[b].name == d.conns[c].name)))
            && (name != d.conns[c].name ==>
                  (name in d'.shores <==> name in d.shores) && (name in d.shores ==> d'.shores[name] == d.shores[name]))
  {
    hide Run;
    RunKeeps(run);
    RunSnoc(run, Enter(c));
    assert ConnSound(Run(run).value.conns[c].tunnel);
  }

  // ---------------------------------------------------------------- when a connection registered

  /** The position at which connection `c` was registered; only meaningful once it was. */
  ghost function EnteredAt(run: seq<Action>, c: nat): nat
    requires Run(run).Some?
    ensures run != [] ==> EnteredAt(run, c) < |run|
  {
    if run == [] then 0
    else if run[|run|-1] == Enter(c) then |run| - 1
    else EnteredAt(run[..|run|-1], c)
  }

  predicate Entered(d: State, c: nat) {
    c < |d.conns| && !d.conns[c].tunnel.loop.Starting?
  }

  /** The loop of `b`, which registered before `c` and under the same name, runs its deferred
      Unregister at position `j`, after `c` registered. */
  ghost predicate EvictedBy(run: seq<Action>, c: nat, b: nat, j: nat)
    requires Run(run).Some?
  {
    && EnteredAt(run, b) < EnteredAt(run, c) < j < |run|
    && run[j] == Leave(b)
    && b < |At(run, j).conns| && c < |At(run, j).conns|
    && At(run, j).conns[b].name == At(run, j).conns[c].name
  }

  ghost predicate Evicted(run: seq<Action>, c: nat)
    requires Run(run).Some?
  {
    exists b: nat, j: nat :: EvictedBy(run, c, b, j)
  }

  ghost predicate NewestOfItsName(run: seq<Action>, c: nat)
    requires Run(run).Some? && c < |Run(run).value.conns|
  {
    var d := Run(run).value;
    Registered(d, c) ==>
      Entered(d, c) &&
      forall b: nat :: Entered(d, b) && b != c && d.conns[b].name == d.conns[c].name ==> EnteredAt(run, b) < EnteredAt(run, c)
  }

  lemma EntersOnce(d: State, a: Action, c: nat)
    requires Inv(d) && Step(d, a).Some? && c < |d.conns|
    ensures c < |Step(d, a).value.conns|
    ensures Step(d, a).value.conns[c].name == d.conns[c].name
    ensures Entered(Step(d, a).value, c) <==> Entered(d, c) || a == Enter(c)
    ensures a == Enter(c) ==> !Entered(d, c) && Registered(Step(d, a).value, c)
    ensures Registered(Step(d, a).value, c) ==> Registered(d, c) || a == Enter(c)
  {
    hide Step;
    StepMovesConn(d, a, c);
    StepMovesShores(d, a);
  }

  /** The registered connection of a name is the one of that name that registered last. */
  lemma {:induction false} RegisteredIsNewest(run: seq<Action>, c: nat)
    requires Run(run).Some? && c < |Run(run).value.conns|
    ensures NewestOfItsName(run, c)
  {
    hide Step, Inv;
    var before, a := run[..|run|-1], run[|run|-1];
    var d, d' := Run(before).value, Run(run).value;
    RunKeeps(before);
    RunKeeps(run);
    StepMovesShores(d, a);
    if Registered(d', c) {
      RegisteredExists(d, a, c);
      RegisteredIsNewest(before, c);
      EntersOnce(d, a, c);
      forall b: nat | Entered(d', b) && b != c && d'.conns[b].name == d'.conns[c].name
        ensures EnteredAt(run, b) < EnteredAt(run, c)
      {
        if b < |d.conns| {
          EntersOnce(d, a, b);
          if a != Enter(c) && a == Enter(b) {
            NotBothRegistered(d', b, c);
          }
          if a == Enter(c) {
            NonEmptyIfEntered(before, b);
          }
        }
      }
    }
  }

  lemma NonEmptyIfEntered(run: seq<Action>, b: nat)
    requires Run(run).Some? && Entered(Run(run).value, b)
    ensures run != []
  {
  }

  lemma NotBothRegistered(d: State, b: nat, c: nat)
    requires b < |d.conns| && c < |d.conns| && d.conns[b].name == d.conns[c].name
    requires Registered(d, b) && Registered(d, c)
    ensures b == c
  {
  }

  lemma RegisteredExists(d: State, a: Action, c: nat)
    requires Inv(d) && Step(d, a).Some? && Inv(Step(d, a).value)
    requires c < |Step(d, a).value.conns| && Registered(Step(d, a).value, c)
    ensures c < |d.conns| && Entered(Step(d, a).value, c)
  {
    hide Step;
    StepMovesShores(d, a);
    assert EntrySound(Step(d, a).value, Step(d, a).value.conns[c].name);
  }

  // ---------------------------------------------------------------- exact registration

  /** How a registered, open connection can stop being registered while it stays open and serving. */
  lemma LosesItsEntry(d: State, a: Action, c: nat)
    requires Inv(d) && Step(d, a).Some? && c < |d.conns| && Registered(d, c)
    requires c < |Step(d, a).value.conns| && !Registered(Step(d, a).value, c)
    requires !Step(d, a).value.conns[c].tunnel.done && Serving(Step(d, a).value.conns[c])
    ensures exists b: nat :: a == Leave(b) && b != c && b < |d.conns| && d.conns[b].name == d.conns[c].name && Serving(d.conns[b])
  {
    StepMovesShores(d, a);
    StepMovesConn(d, a, c);
    assert EntrySound(d, d.conns[c].name);
    if a.Leave? {
      StepMovesConn(d, a, a.c);
    }
  }

  lemma EvictedCarries(before: seq<Action>, a: Action, c: nat)
    requires Run(before).Some? && Run(before + [a]).Some? && a != Enter(c)
    requires Evicted(before, c)
    ensures Evicted(before + [a], c)
  {
    hide Step, Run;
    var b: nat, j: nat :| EvictedBy(before, c, b, j);
    var run := before + [a];
    assert run[..|before|] == before && run[..j] == before[..j];
    AtStep(before, j);
    EnteredNotAgain(before, a, b, j);
    assert EvictedBy(run, c, b, j);
  }

  /** A connection whose loop has run cannot register again. */
  lemma EnteredNotAgain(before: seq<Action>, a: Action, b: nat, j: nat)
    requires Run(before).Some? && Run(before + [a]).Some? && j < |before| && before[j] == Leave(b)
    ensures a != Enter(b)
  {
    hide Step, Run;
    AtStep(before, j);
    var d := At(before, j);
    LeaverExists(d, b);
    StepMovesConn(d, Leave(b), b);
    StaysEntered(before, j + 1, |before|, b);
    assert before[..|before|] == before;
    RunSnoc(before, a);
    RunKeeps(before);
    if a == Enter(b) {
      EntersOnce(Run(before).value, a, b);
    }
  }

  lemma LeaverExists(d: State, b: nat)
    requires Step(d, Leave(b)).Some?
    ensures b < |d.conns|
  {
  }

  lemma {:induction false} StaysEntered(run: seq<Action>, n: nat, last: nat, c: nat)
    requires Run(run).Some? && n <= last <= |run| && Entered(At(run, n), c)
    ensures Entered(At(run, last), c)
    ensures At(run, last).conns[c].name == At(run, n).conns[c].name
    decreases last - n
  {
    hide Step, At, Run;
    if n < last {
      AtStep(run, n);
      EntersOnce(At(run, n), run[n], c);
      StaysEntered(run, n + 1, last, c);
    }
  }

  /** In every run, an open connection that is still being served is missing from the registry if and
      only if a connection of the same name that had registered before it ran its deferred Unregister
      after it registered. */
  lemma {:induction false} MissingExactlyWhenEvicted(run: seq<Action>, c: nat)
    requires Run(run).Some? && c < |Run(run).value.conns|
    requires Serving(Run(run).value.conns[c]) && !Run(run).value.conns[c].tunnel.done
    ensures Registered(Run(run).value, c) <==> !Evicted(run, c)
  {
    hide Step, Inv;
    if Evicted(run, c) {
      var b: nat, j: nat :| EvictedBy(run, c, b, j);
      EvictionIsFinal(run, c, b, j);
    } else if !Registered(Run(run).value, c) {
      OpenUnlessEvicted(run, c);
    }
  }

  lemma {:induction false} OpenUnlessEvicted(run: seq<Action>, c: nat)
    requires Run(run).Some? && c < |Run(run).value.conns|
    requires Serving(Run(run).value.conns[c]) && !Run(run).value.conns[c].tunnel.done
    requires !Registered(Run(run).value, c)
    ensures Evicted(run, c)
  {
    hide Step, Inv, Evicted;
    var before, a := run[..|run|-1], run[|run|-1];
    assert run == before + [a];
    var d := Run(before).value;
    RunKeeps(before);
    StepMovesShores(d, a);
    ServingExisted(d, a, c);
    StepMovesConn(d, a, c);
    EntersOnce(d, a, c);
    if Registered(d, c) {
      LosesItsEntry(d, a, c);
      var b: nat :| a == Leave(b) && b != c && b < |d.conns| && d.conns[b].name == d.conns[c].name && Serving(d.conns[b]);
      RegisteredIsNewest(before, c);
      assert run[..|before|] == before;
      assert EvictedBy(run, c, b, |before|);
      EvictedIntro(run, c, b, |before|);
    } else {
      OpenUnlessEvicted(before, c);
      EvictedCarries(before, a, c);
    }
  }

  lemma EvictedIntro(run: seq<Action>, c: nat, b: nat, j: nat)
    requires Run(run).Some? && EvictedBy(run, c, b, j)
    ensures Evicted(run, c)
  {
  }

  lemma ServingExisted(d: State, a: Action, c: nat)
    requires Step(d, a).Some? && c < |Step(d, a).value.conns| && Serving(Step(d, a).value.conns[c])
    ensures c < |d.conns|
  {
    hide Step;
    StepMovesShores(d, a);
  }

  // ---------------------------------------------------------------- once missing, always missing

  lemma {:induction false} NeverBack(run: seq<Action>, n: nat, last: nat, c: nat)
    requires Run(run).Some? && n <= last <= |run|
    requires Entered(At(run, n), c) && !Registered(At(run, n), c)
    ensures Entered(At(run, last), c) && !Registered(At(run, last), c)
    decreases last - n
  {
    hide Step, At, Run;
    if n < last {
      AtStep(run, n);
      EntersOnce(At(run, n), run[n], c);
      NeverBack(run, n + 1, last, c);
    }
  }

  /** After its registration a connection has been entered at every point. */
  lemma EnteredSince(run: seq<Action>, c: nat, j: nat)
    requires Run(run).Some? && Entered(Run(run).value, c) && EnteredAt(run, c) < j <= |run|
    ensures Entered(At(run, j), c)
  {
    hide Step, Run, Inv, At, Entered;
    var p := EnteredAt(run, c);
    EnteredAtEnters(run, c);
    AtStep(run, p);
    EnterActorExists(At(run, p), c);
    EntersOnce(At(run, p), run[p], c);
    StaysEntered(run, p + 1, j, c);
  }

  lemma LeaveTakesTheName(d: State, b: nat, c: nat)
    requires Step(d, Leave(b)).Some? && b < |d.conns| && c < |d.conns| && d.conns[b].name == d.conns[c].name
    requires c < |Step(d, Leave(b)).value.conns| && Step(d, Leave(b)).value.conns[c].name == d.conns[c].name
    ensures !Registered(Step(d, Leave(b)).value, c)
  {
    hide Step;
    StepMovesShores(d, Leave(b));
  }

  lemma EvictionIsFinal(run: seq<Action>, c: nat, b: nat, j: nat)
    requires Run(run).Some? && Entered(Run(run).value, c) && EvictedBy(run, c, b, j)
    ensures !Registered(Run(run).value, c)
  {
    hide Step, Run, Inv, At;
    EnteredSince(run, c, j);
    AtStep(run, j);
    EntersOnce(At(run, j), run[j], c);
    LeaveTakesTheName(At(run, j), b, c);
    NeverBack(run, j + 1, |run|, c);
    PrefixState(run, |run|);
    assert run[..|run|] == run;
  }

  lemma RegisteredServes(d: State, c: nat)
    requires Inv(d) && c < |d.conns| && Registered(d, c)
    ensures Entered(d, c) && Serving(d.conns[c]) && !d.conns[c].tunnel.done
  {
    assert EntrySound(d, d.conns[c].name);
  }

  /** A connection that is missing from the registry is never registered again, and neither a Register
      nor the reaper ever closes it: it can only be closed by its own deferred Close. */
  lemma {:induction false} OrphansAreLeftAlone(run: seq<Action>, n: nat, last: nat, c: nat)
    requires Run(run).Some? && n <= last <= |run|
    requires Entered(At(run, n), c) && !Registered(At(run, n), c) && !At(run, n).conns[c].tunnel.done
    ensures c < |At(run, last).conns| && !Registered(At(run, last), c)
    ensures At(run, last).conns[c].tunnel.done ==>
              exists p :: n <= p < last && run[p] == Inner(c, T.Loop(T.CloseOwn))
    decreases last - n
  {
    hide Step, At, Run, Inv;
    NeverBack(run, n, last, c);
    if n < last {
      var d := At(run, n);
      AtStep(run, n);
      EntersOnce(d, run[n], c);
      StepMovesConn(d, run[n], c);
      if !At(run, n + 1).conns[c].tunnel.done {
        OrphansAreLeftAlone(run, n + 1, last, c);
      } else {
        ClosedOnlyIfRegistered(d, run[n], c);
      }
    }
  }

  lemma ClosedOnlyIfRegistered(d: State, a: Action, c: nat)
    requires Inv(d) && c < |d.conns| && !Registered(d, c)
    ensures !(a == Reap && c in Reaped(d))
    ensures !(a.Enter? && a.c < |d.conns| && d.conns[a.c].name in d.shores && d.shores[d.conns[a.c].name] == c)
  {
    forall n | n in d.shores ensures d.shores[n] != c {
      assert EntrySound(d, n);
    }
  }

  // ---------------------------------------------------------------- handlers that never overlap

  /** No handler registers while another handler of the same name is being served. */
  ghost predicate NoOverlap(run: seq<Action>)
    requires Run(run).Some?
  {
    forall p, b: nat, c: nat ::
      0 <= p < |run| && run[p] == Enter(c) && c < |At(run, p).conns| && b < |At(run, p).conns| && b != c
      && At(run, p).conns[b].name == At(run, p).conns[c].name
      ==> !Serving(At(run, p).conns[b])
  }

  /** Where handlers of one name never overlap, a connection is registered exactly while its handler
      is between Register and Unregister and it has not been closed. */
  lemma {:induction false} RegisteredExactlyWhileServing(run: seq<Action>, c: nat)
    requires Run(run).Some? && NoOverlap(run) && c < |Run(run).value.conns|
    ensures var conn := Run(run).value.conns[c];
            Registered(Run(run).value, c) <==> Serving(conn) && !conn.tunnel.done
  {
    hide Step, Inv, NoOverlap;
    RunKeeps(run);
    if Registered(Run(run).value, c) {
      RegisteredServes(Run(run).value, c);
    } else if Serving(Run(run).value.conns[c]) && !Run(run).value.conns[c].tunnel.done {
      OpenUnlessEvicted(run, c);
      var b: nat, j: nat :| EvictedBy(run, c, b, j);
      EvictionOverlaps(run, c, b, j);
    }
  }

  /** The action at `EnteredAt` is the registration, and the connection has been entered since. */
  lemma {:induction false} EnteredAtEnters(run: seq<Action>, c: nat)
    requires Run(run).Some? && Entered(Run(run).value, c)
    ensures run != [] && run[EnteredAt(run, c)] == Enter(c)
  {
    hide Step, Inv;
    var before, a := run[..|run|-1], run[|run|-1];
    var d := Run(before).value;
    RunKeeps(before);
    StepMovesShores(d, a);
    EnteredExisted(d, a, c);
    EntersOnce(d, a, c);
    if a != Enter(c) {
      EnteredAtEnters(before, c);
    }
  }

  lemma EnteredExisted(d: State, a: Action, c: nat)
    requires Step(d, a).Some? && Entered(Step(d, a).value, c)
    ensures c < |d.conns|
  {
    hide Step;
    StepMovesShores(d, a);
  }

  /** Being served is one unbroken stretch from Register to Unregister. */
  lemma {:induction false} ServedUntilLeaving(run: seq<Action>, n: nat, last: nat, b: nat)
    requires Run(run).Some? && n <= last <= |run|
    requires Entered(At(run, n), b) && Entered(At(run, last), b) && Serving(At(run, last).conns[b])
    ensures Serving(At(run, n).conns[b])
    decreases last - n
  {
    hide Step, At, Run, Inv, Serving;
    if n < last {
      AtStep(run, n);
      EntersOnce(At(run, n), run[n], b);
      ServedUntilLeaving(run, n + 1, last, b);
      StepMovesConn(At(run, n), run[n], b);
    }
  }

  lemma LeaverServes(d: State, b: nat)
    requires Inv(d) && Step(d, Leave(b)).Some?
    ensures Entered(d, b) && Serving(d.conns[b])
  {
    hide T.Step;
    StepMovesConn(d, Leave(b), b);
  }

  lemma EnteredAtPrefix(run: seq<Action>, j: nat, c: nat)
    requires Run(run).Some? && j <= |run| && EnteredAt(run, c) < j
    ensures Run(run[..j]).Some? && EnteredAt(run[..j], c) == EnteredAt(run, c)
    decreases |run|
  {
    hide Step;
    RunPrefix(run, j);
    if j < |run| {
      var before := run[..|run|-1];
      EnteredAtPrefix(before, j, c);
      assert before[..j] == run[..j];
    } else {
      assert run[..j] == run;
    }
  }

  lemma EnterActorExists(d: State, c: nat)
    requires Step(d, Enter(c)).Some?
    ensures c < |d.conns|
  {
  }

  lemma {:induction false} NameStays(run: seq<Action>, n: nat, last: nat, c: nat)
    requires Run(run).Some? && n <= last <= |run| && c < |At(run, n).conns|
    ensures c < |At(run, last).conns| && At(run, last).conns[c].name == At(run, n).conns[c].name
    decreases last - n
  {
    hide Step, At, Run, Inv;
    if n < last {
      AtStep(run, n);
      EntersOnce(At(run, n), run[n], c);
      NameStays(run, n + 1, last, c);
    }
  }

  /** An eviction needs an overlap: the older handler was being served when the newer one registered. */
  lemma EvictionOverlaps(run: seq<Action>, c: nat, b: nat, j: nat)
    requires Run(run).Some? && Entered(Run(run).value, c) && EvictedBy(run, c, b, j)
    ensures !NoOverlap(run)
  {
    hide Step, Inv, At, Run, Serving;
    var p, q := EnteredAt(run, c), EnteredAt(run, b);
    AtStep(run, j);
    LeaverServes(At(run, j), b);
    EnteredSince(run, c, j);
    EnteredAtPrefix(run, j, b);
    EnteredAtPrefix(run, j, c);
    PrefixState(run, j);
    EnteredAtEnters(run[..j], b);
    EnteredAtEnters(run[..j], c);
    AtStep(run, q);
    EnterActorExists(At(run, q), b);
    EntersOnce(At(run, q), run[q], b);
    StaysEntered(run, q + 1, p, b);
    ServedUntilLeaving(run, p, j, b);
    AtStep(run, p);
    EnterActorExists(At(run, p), c);
    NameStays(run, p, j, c);
    NameStays(run, p, j, b);
    assert Serving(At(run, p).conns[b]) && run[p] == Enter(c);
  }

  lemma PrefixState(run: seq<Action>, j: nat)
    requires Run(run).Some? && j <= |run|
    ensures Run(run[..j]).Some? && Run(run[..j]).value == At(run, j)
  {
    RunPrefix(run, j);
  }

  // ---------------------------------------------------------------- the run that loses a Shore

  /** A Shore reconnects before the handler of its old connection has noticed: the old handler's late
      Unregister removes the new connection, which stays open and serving. */
  const LATE_CLEANUP: seq<Action> := [
    Build("shore-a", "ann"), Enter(0), Build("shore-a", "ann"), Enter(1),
    Inner(0, T.Loop(T.ReadFails)), Leave(0)]

  predicate LateCleanupReached(d: State, n: nat) {
    && |d.conns| == (if n == 0 then 0 else if n < 3 then 1 else 2)
    && (n >= 1 ==> d.conns[0].name == "shore-a" &&
                   d.conns[0].tunnel == T.INIT.(done := n >= 4, loop := if n == 1 then T.Starting else if n < 5 then T.Reading
                                                                        else if n == 5 then T.Exiting else T.Unregistered))
    && (n >= 3 ==> d.conns[1].name == "shore-a" && d.conns[1].tunnel == T.INIT.(loop := if n == 3 then T.Starting else T.Reading))
    && d.shores == (if n < 2 || n == 6 then map[] else map["shore-a" := if n < 4 then 0 else 1])
  }

  lemma LateCleanupStep(d: State, n: nat)
    requires n < 6 && LateCleanupReached(d, n)
    ensures Step(d, LATE_CLEANUP[n]).Some? && LateCleanupReached(Step(d, LATE_CLEANUP[n]).value, n + 1)
  {
  }

  lemma {:induction false} LateCleanupRuns(n: nat)
    requires n <= 6
    ensures Run(LATE_CLEANUP[..n]).Some? && LateCleanupReached(Run(LATE_CLEANUP[..n]).value, n)
  {
    hide Step, LateCleanupReached;
    if n > 0 {
      LateCleanupRuns(n - 1);
      LateCleanupStep(Run(LATE_CLEANUP[..n-1]).value, n - 1);
      RunSnoc(LATE_CLEANUP[..n-1], LATE_CLEANUP[n-1]);
      assert LATE_CLEANUP[..n] == LATE_CLEANUP[..n-1] + [LATE_CLEANUP[n-1]];
    } else {
      LateCleanupStart();
    }
  }

  lemma LateCleanupStart()
    ensures LateCleanupReached(INIT, 0)
  {
  }

  lemma {:induction false} LateCleanupLosesAShore()
    ensures Run(LATE_CLEANUP).Some? && |Run(LATE_CLEANUP).value.conns| == 2
    ensures var d := Run(LATE_CLEANUP).value;
            && d.conns[1].tunnel.loop == T.Reading && !d.conns[1].tunnel.done
            && !Registered(d, 1) && GetByOwner(d, "ann", "shore-a") == None
    ensures Evicted(LATE_CLEANUP, 1)
  {
    hide Run, Step;
    LateCleanupRuns(6);
    assert LATE_CLEANUP[..6] == LATE_CLEANUP;
    OpenUnlessEvicted(LATE_CLEANUP, 1);
  }
}
