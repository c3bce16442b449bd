/**
 The gateway as a whole: every connection ever built, the registry of names, and the clock
 (registry.go, shore_handler.go).  Each registry operation is one step, because it runs under the
 registry lock; everything else a connection does is a step of `Tunnel`.
 */
module Dock {
  import opened Wrappers
  import T = Tunnel

  // Times are in nanoseconds, as Go's time.Duration.
  const SECOND: int := 1_000_000_000
  const STALE: int := 45 * SECOND
  const TICK: int := 15 * SECOND

  datatype Conn = Conn(name: string, owner: string, lastPing: int, tunnel: T.State)

  /** `shores` maps a name to the position in `conns` of the connection registered under it. */
  datatype State = State(conns: seq<Conn>, shores: map<string, nat>, now: int)

  datatype Action =
    | Build(name: string, owner: string)    // shoreConnectHandler makes the connection
    | Enter(c: nat)                         // Register
    | Ping(c: nat, pongWritten: bool)       // a ping message
    | Leave(c: nat)                         // the deferred Unregister
    | Inner(c: nat, act: T.Action)          // anything else the connection or its handlers do
    | Reap
    | Advance(t: nat)

  const INIT: State := State([], map[], 0)

  /** Actions of a connection that touch neither the registry nor `LastPing`. */
  predicate Private(a: T.Action) {
    a != T.CloseOther && !(a.Loop? && (a.le.Register? || a.le.Unregister? || a.le.GetPing?))
  }

  function Close(conn: Conn): Conn {
    conn.(tunnel := conn.tunnel.(done := true))
  }

  function CloseAt(conns: seq<Conn>, c: nat): seq<Conn> {
    if c < |conns| then conns[c := Close(conns[c])] else conns
  }

  predicate Stale(d: State, c: nat) {
    c < |d.conns| && d.now - d.conns[c].lastPing > STALE
  }

  /** The connections that one pass of `reap` closes. */
  function Reaped(d: State): set<nat> {
    set n | n in d.shores && Stale(d, d.shores[n]) :: d.shores[n]
  }

  function ReapAll(d: State): State {
    var reaped := Reaped(d);
    d.(conns := seq(|d.conns|, c requires 0 <= c < |d.conns| => if c in reaped then Close(d.conns[c]) else d.conns[c]),
       shores := map n | n in d.shores && !Stale(d, d.shores[n]) :: d.shores[n])
  }

  /** Connection `c` takes a step. */
  function Advanced(d: State, c: nat, a: T.Action): Option<State> {
    if c >= |d.conns| then None
    else match T.Step(d.conns[c].tunnel, a)
      case None => None
      case Some(t) => Some(d.(conns := d.conns[c := d.conns[c].(tunnel := t)]))
  }

  function Step(d: State, a: Action): Option<State> {
    match a
    case Build(name, owner) =>
      if name == "" then None
      else Some(d.(conns := d.conns + [Conn(name, owner, d.now, T.INIT)]))
    case Enter(c) =>
      if c >= |d.conns| then None
      else
        var name := d.conns[c].name;
        var conns := if name in d.shores then CloseAt(d.conns, d.shores[name]) else d.conns;
        Advanced(d.(conns := conns, shores := d.shores[name := c]), c, T.Loop(T.Register))
    case Ping(c, pongWritten) =>
      if c >= |d.conns| then None
      else Advanced(d.(conns := d.conns[c := d.conns[c].(lastPing := d.now)]), c, T.Loop(T.GetPing(pongWritten)))
    case Leave(c) =>
      if c >= |d.conns| then None
      else Advanced(d.(shores := d.shores - {d.conns[c].name}), c, T.Loop(T.Unregister))
    case Inner(c, act) =>
      if Private(act) then Advanced(d, c, act) else None
    case Reap => Some(ReapAll(d))
    case Advance(t) => Some(d.(now := d.now + t))
  }

  function Run(run: seq<Action>): Option<State> {
    if run == [] then Some(INIT)
    else match Run(run[..|run|-1])
      case None => None
      case Some(d) => Step(d, run[|run|-1])
  }

  lemma {:induction false} RunSnoc(run: seq<Action>, a: Action)
    ensures Run(run + [a]) == if Run(run).Some? then Step(Run(run).value, a) else None
  {
    hide Step;
    assert (run + [a])[..|run|] == run;
  }

  lemma {:induction false} RunPrefix(run: seq<Action>, n: nat)
    requires n <= |run| && Run(run).Some?
    ensures Run(run[..n]).Some?
    decreases |run|
  {
    hide Step;
    if n < |run| {
      RunPrefix(run[..|run|-1], n);
      assert run[..|run|-1][..n] == run[..n];
    } else {
      assert run[..n] == run;
    }
  }

  /** The state after the first `n` actions of a run. */
  ghost function At(run: seq<Action>, n: nat): State
    requires Run(run).Some? && n <= |run|
  {
    RunPrefix(run, n);
    Run(run[..n]).value
  }

  // ---------------------------------------------------------------- the registry invariant

  /** The handler of this connection has registered it and not yet run its deferred Unregister. */
  predicate Serving(conn: Conn) {
    !conn.tunnel.loop.Starting? && !conn.tunnel.loop.Unregistered? && !conn.tunnel.loop.Stopped?
  }

  predicate Registered(d: State, c: nat)
    requires c < |d.conns|
  {
    d.conns[c].name in d.shores && d.shores[d.conns[c].name] == c
  }

  predicate EntrySound(d: State, n: string)
    requires n in d.shores
  {
    var c := d.shores[n];
    && c < |d.conns|
    && d.conns[c].name == n
    && !d.conns[c].tunnel.done
    && Serving(d.conns[c])
  }

  ghost predicate Inv(d: State) {
    && (forall n :: n in d.shores ==> EntrySound(d, n))
    && (forall c :: 0 <= c < |d.conns| ==> ConnSound(d.conns[c].tunnel))
  }

  /** Nobody has touched a connection that is not yet registered; a stopped one is closed. */
  predicate ConnSound(s: T.State) {
    && (s.loop.Starting? ==> s == T.INIT)
    && (s.loop.Stopped? ==> s.done)
  }

  /** What a step of the gateway is for connection `c` alone: at most one action of `Tunnel`. */
  function Projected(d: State, a: Action, c: nat): seq<T.Action> {
    match a
    case Enter(b) =>
      if b == c then [T.Loop(T.Register)]
      else if b < |d.conns| && d.conns[b].name in d.shores && d.shores[d.conns[b].name] == c then [T.CloseOther]
      else []
    case Ping(b, pongWritten) => if b == c then [T.Loop(T.GetPing(pongWritten))] else []
    case Leave(b) => if b == c then [T.Loop(T.Unregister)] else []
    case Inner(b, act) => if b == c then [act] else []
    case Reap => if c in Reaped(d) then [T.CloseOther] else []
    case _ => []
  }

  /** What any one step does to any one connection. */
  ghost predicate ConnMoves(d: State, a: Action, d': State, c: nat)
    requires c < |d.conns| && c < |d'.conns|
  {
    var conn, conn' := d.conns[c], d'.conns[c];
    && conn'.name == conn.name && conn'.owner == conn.owner
    && (Projected(d, a, c) == [] ==> conn'.tunnel == conn.tunnel)
    && (Projected(d, a, c) != [] ==> T.Step(conn.tunnel, Projected(d, a, c)[0]) == Some(conn'.tunnel))
    && (conn.tunnel.done ==> conn'.tunnel.done)
    && (conn'.tunnel.loop.Stopped? ==> conn.tunnel.loop.Stopped? || conn'.tunnel.done)
    && (Serving(conn) ==> Serving(conn') || a == Leave(c))
    && (Serving(conn') ==> Serving(conn) || a == Enter(c))
    && (a == Enter(c) ==> conn.tunnel.loop.Starting?)
    && (conn'.tunnel.loop.Starting? ==> conn.tunnel.loop.Starting?)
    && (conn.tunnel.loop.Starting? ==> conn'.tunnel.loop.Starting? || a == Enter(c))
    && (a == Leave(c) ==> Serving(conn) && !Serving(conn'))
    && (conn'.lastPing == if a.Ping? && a.c == c then d.now else conn.lastPing)
    && (conn'.tunnel.done && !conn.tunnel.done ==>
          || a == Inner(c, T.Loop(T.CloseOwn))
          || (a == Reap && c in Reaped(d))
          || (a.Enter? && a.c < |d.conns| && d.conns[a.c].name in d.shores && d.shores[d.conns[a.c].name] == c))
    && (a == Inner(c, T.Loop(T.CloseOwn)) ==> !Serving(conn))
  }

  lemma TunnelMoves(s: T.State, a: T.Action)
    requires T.Step(s, a).Some?
    ensures var s' := T.Step(s, a).value;
            && (s.done ==> s'.done)
            && (s'.done && !s.done ==> a == T.CloseOther || a == T.Loop(T.CloseOwn))
            && (s.loop.Starting? <==> a == T.Loop(T.Register))
            && (a == T.Loop(T.Register) ==> s' == s.(loop := T.Reading))
            && (a == T.CloseOther ==> s' == s.(done := true))
            && !s'.loop.Starting?
            && (a == T.Loop(T.Unregister) <==> s.loop.Exiting? && s'.loop.Unregistered?)
            && (a == T.Loop(T.CloseOwn) <==> s.loop.Unregistered? && s'.loop.Stopped?)
            && (s'.loop.Stopped? ==> s.loop.Stopped? || a == T.Loop(T.CloseOwn))
            && (s'.loop.Unregistered? ==> s.loop.Unregistered? || a == T.Loop(T.Unregister))
            && (s.loop.Unregistered? ==> s'.loop.Unregistered? || a == T.Loop(T.CloseOwn))
            && (s.loop.Stopped? ==> s'.loop.Stopped?)
            && (a == T.Loop(T.CloseOwn) ==> s'.done)
  {
    match a
    case Http(e) =>
    case Loop(e) =>
    case Sse(e) =>
    case CloseOther =>
  }

  lemma CloseIsCloseOther(s: T.State)
    requires !s.loop.Starting?
    ensures T.Step(s, T.CloseOther) == Some(s.(done := true))
  {
  }

  lemma EnterMovesConn(d: State, b: nat, c: nat)
    requires Inv(d) && Step(d, Enter(b)).Some? && c < |d.conns|
    ensures c < |Step(d, Enter(b)).value.conns| && ConnMoves(d, Enter(b), Step(d, Enter(b)).value, c)
  {
    hide T.Step;
    var name := d.conns[b].name;
    if name in d.shores {
      assert EntrySound(d, name);
      if d.shores[name] != b {
        CloseIsCloseOther(d.conns[d.shores[name]].tunnel);
        TunnelMoves(d.conns[b].tunnel, T.Loop(T.Register));
      } else {
        TunnelMoves(Close(d.conns[b]).tunnel, T.Loop(T.Register));
      }
    } else {
      TunnelMoves(d.conns[b].tunnel, T.Loop(T.Register));
    }
  }

  lemma InnerMovesConn(d: State, b: nat, act: T.Action, c: nat)
    requires Inv(d) && Step(d, Inner(b, act)).Some? && c < |d.conns|
    ensures c < |Step(d, Inner(b, act)).value.conns| && ConnMoves(d, Inner(b, act), Step(d, Inner(b, act)).value, c)
  {
    hide T.Step;
    TunnelMoves(d.conns[b].tunnel, act);
  }

  lemma ReapMovesConn(d: State, c: nat)
    requires Inv(d) && Step(d, Reap).Some? && c < |d.conns|
    ensures c < |Step(d, Reap).value.conns| && ConnMoves(d, Reap, Step(d, Reap).value, c)
  {
    hide T.Step;
    if c in Reaped(d) {
      var n :| n in d.shores && d.shores[n] == c;
      assert EntrySound(d, n);
      CloseIsCloseOther(d.conns[c].tunnel);
    }
  }

  lemma StepMovesConn(d: State, a: Action, c: nat)
    requires Inv(d) && Step(d, a).Some? && c < |d.conns|
    ensures c < |Step(d, a).value.conns| && ConnMoves(d, a, Step(d, a).value, c)
  {
    hide T.Step;
    match a
    case Build(name, owner) =>
    case Enter(b) => EnterMovesConn(d, b, c);
    case Ping(b, pongWritten) => TunnelMoves(d.conns[b].tunnel, T.Loop(T.GetPing(pongWritten)));
    case Leave(b) => TunnelMoves(d.conns[b].tunnel, T.Loop(T.Unregister));
    case Inner(b, act) => InnerMovesConn(d, b, act, c);
    case Reap => ReapMovesConn(d, c);
    case Advance(t) =>
  }

  /** What any one step does to the registry. */
  ghost predicate ShoresMove(d: State, a: Action, d': State) {
    match a
    case Enter(c) => c < |d.conns| && d'.shores == d.shores[d.conns[c].name := c]
    case Leave(c) => c < |d.conns| && d'.shores == d.shores - {d.conns[c].name}
    case Reap => d'.shores == ReapAll(d).shores
    case _ => d'.shores == d.shores
  }

  lemma StepMovesShores(d: State, a: Action)
    requires Step(d, a).Some?
    ensures ShoresMove(d, a, Step(d, a).value)
    ensures |d.conns| <= |Step(d, a).value.conns| <= |d.conns| + 1
    ensures forall c :: |d.conns| <= c < |Step(d, a).value.conns| ==>
              && Step(d, a).value.conns[c].tunnel == T.INIT
              && Step(d, a).value.conns[c].lastPing == d.now
              && a == Build(Step(d, a).value.conns[c].name, Step(d, a).value.conns[c].owner)
    ensures Step(d, a).value.now == d.now + (if a.Advance? then a.t else 0)
  {
    hide T.Step;
  }

  lemma ReapSparesFresh(d: State, n: string)
    requires Inv(d) && n in ReapAll(d).shores
    ensures n in d.shores && ReapAll(d).shores[n] == d.shores[n] && d.shores[n] !in Reaped(d)
  {
  }

  lemma StepKeepsEntry(d: State, a: Action, n: string)
    requires Inv(d) && Step(d, a).Some? && n in Step(d, a).value.shores
    ensures EntrySound(Step(d, a).value, n)
  {
    hide Step, T.Step;
    var d' := Step(d, a).value;
    StepMovesShores(d, a);
    var c := d'.shores[n];
    if a.Enter? && a.c == c {
      RegisterSucceeds(d, c);
      StepMovesConn(d, a, c);
    } else {
      if a == Reap {
        ReapSparesFresh(d, n);
      }
      assert EntrySound(d, n);
      StepMovesConn(d, a, c);
    }
  }

  /** A connection that has just registered is open and serving. */
  lemma RegisterSucceeds(d: State, c: nat)
    requires Inv(d) && Step(d, Enter(c)).Some?
    ensures c < |d.conns| && c < |Step(d, Enter(c)).value.conns|
    ensures Step(d, Enter(c)).value.conns[c] == d.conns[c].(tunnel := T.INIT.(loop := T.Reading))
    ensures d.conns[c].tunnel == T.INIT
  {
    hide T.Step;
    StepMovesConn(d, Enter(c), c);
    TunnelMoves(d.conns[c].tunnel, T.Loop(T.Register));
    assert ConnSound(d.conns[c].tunnel);
  }

  lemma StepKeeps(d: State, a: Action)
    requires Inv(d) && Step(d, a).Some?
    ensures Inv(Step(d, a).value)
  {
    hide Step, T.Step;
    var d' := Step(d, a).value;
    StepMovesShores(d, a);
    forall n | n in d'.shores ensures EntrySound(d', n) {
      StepKeepsEntry(d, a, n);
    }
    forall c | 0 <= c < |d'.conns|
      ensures ConnSound(d'.conns[c].tunnel)
    {
      if c < |d.conns| {
        StepMovesConn(d, a, c);
        assert ConnSound(d.conns[c].tunnel);
        StartingStays(d, a, c);
      }
    }
  }

  lemma StartingStays(d: State, a: Action, c: nat)
    requires Inv(d) && Step(d, a).Some? && c < |d.conns|
    ensures c < |Step(d, a).value.conns|
    ensures Step(d, a).value.conns[c].tunnel.loop.Starting? ==> Step(d, a).value.conns[c].tunnel == d.conns[c].tunnel
  {
    hide Step, T.Step;
    StepMovesConn(d, a, c);
    if Projected(d, a, c) != [] {
      TunnelMoves(d.conns[c].tunnel, Projected(d, a, c)[0]);
    }
  }

  lemma {:induction false} RunKeeps(run: seq<Action>)
    requires Run(run).Some?
    ensures Inv(Run(run).value)
  {
    hide Step;
    if run != [] {
      RunKeeps(run[..|run|-1]);
      StepKeeps(Run(run[..|run|-1]).value, run[|run|-1]);
    }
  }

  lemma {:induction false} AtStep(run: seq<Action>, n: nat)
    requires Run(run).Some? && n < |run|
    ensures Step(At(run, n), run[n]) == Some(At(run, n + 1))
    ensures Inv(At(run, n)) && Inv(At(run, n + 1))
  {
    hide Step;
    RunPrefix(run, n);
    RunPrefix(run, n + 1);
    assert run[..n+1] == run[..n] + [run[n]];
    RunSnoc(run[..n], run[n]);
    RunKeeps(run[..n]);
    RunKeeps(run[..n+1]);
  }

  // ---------------------------------------------------------------- each connection is a Tunnel

  /** The run of connection `c` within a run of the gateway. */
  ghost function Projection(run: seq<Action>, c: nat): seq<T.Action>
    requires Run(run).Some?
  {
    if run == [] then []
    else
      var before := run[..|run|-1];
      Projection(before, c) +
      (if c < |Run(before).value.conns| then Projected(Run(before).value, run[|run|-1], c) else [])
  }

  /** Whatever the other connections, the registry and the reaper do, what happens to one connection
      is a run of `Tunnel`; so every result about those runs holds of every connection here. */
  lemma {:induction false} EveryConnectionIsATunnel(run: seq<Action>, c: nat)
    requires Run(run).Some?
    ensures c < |Run(run).value.conns| ==> T.Run(Projection(run, c)) == Some(Run(run).value.conns[c].tunnel)
    ensures c >= |Run(run).value.conns| ==> Projection(run, c) == []
  {
    hide Step, T.Step;
    if run != [] {
      var before, a := run[..|run|-1], run[|run|-1];
      var d := Run(before).value;
      RunKeeps(before);
      EveryConnectionIsATunnel(before, c);
      StepMovesShores(d, a);
      if c < |d.conns| {
        StepMovesConn(d, a, c);
        var p, now := Projection(before, c), Projected(d, a, c);
        if now == [] {
          assert p + now == p;
        } else {
          assert now == [now[0]];
          T.RunSnoc(p, now[0]);
        }
      }
    }
  }
}
