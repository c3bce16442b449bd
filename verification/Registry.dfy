/**
 `ShoreRegistry` as the source writes it: an object holding a map from names to connection objects,
 which Register, Unregister and the reaper update in place while closing connections (registry.go).
 The ghost fields list every connection ever built, so that the object can be read as a `Dock.State`.
 */
module Registry {
  import opened Wrappers
  import opened Connection
  import T = Tunnel
  import D = Dock
  import Registration
  import Text
  import opened OrderIndependence

  function ConnOf(shore: ShoreConnection): D.Conn
    reads shore
  {
    D.Conn(shore.name, shore.owner, shore.lastPing, shore.View())
  }

  class ShoreRegistry {
    var shores: map<string, ShoreConnection>
    ghost var all: seq<ShoreConnection>    // every connection built, in order
    ghost var index: map<string, nat>      // where the registered ones are in `all`

    ghost function View(now: int): D.State
      reads this, all
    {
      D.State(seq(|all|, c requires 0 <= c < |all| reads this, all => ConnOf(all[c])), index, now)
    }

    ghost predicate Linked()
      reads this
    {
      && (forall b, c :: 0 <= b < c < |all| ==> all[b] != all[c])
      && index.Keys == shores.Keys
      && (forall n :: n in shores ==> index[n] < |all| && all[index[n]] == shores[n])
    }

    ghost predicate Consistent()
      reads this, all
    {
      Linked() && (forall c :: 0 <= c < |all| ==> all[c].Valid())
    }

    ghost predicate Valid()
      reads this, all
    {
      Consistent() && D.Inv(View(0))
    }

    constructor ()
      ensures Valid() && View(0) == D.INIT && fresh(this)
    {
      shores := map[];
      all := [];
      index := map[];
    }

    /** The connection handler makes a connection object; an empty name is refused. */
    method Build(name: string, owner: string, now: int) returns (shore: Option<ShoreConnection>)
      requires Valid()
      modifies this
      ensures Valid()
      ensures D.Step(old(View(now)), D.Build(name, owner)) == (if shore.Some? then Some(View(now)) else None)
      ensures shore.Some? <==> name != ""
      ensures shore.Some? ==> all == old(all) + [shore.value] && fresh(shore.value)
      ensures shores == old(shores)
    {
      if name == "" {
        return None;
      }
      ghost var d := View(now);
      var s := new ShoreConnection(name, owner, now);
      all := all + [s];
      assert View(now).conns == d.conns + [D.Conn(name, owner, now, T.INIT)];
      InvAtAnyTime(d.(now := 0), now);
      D.StepKeeps(d, D.Build(name, owner));
      InvAtAnyTime(View(now), 0);
      return Some(s);
    }
  
    /** Closes the connection registered under a name, if there is one. */
    method CloseExisting(name: string, ghost now: int)
      requires Valid()
      modifies all
      ensures Consistent()
      ensures name in shores ==> shores[name].done
      ensures View(now).conns == if name in index then D.CloseAt(old(View(now)).conns, index[name]) else old(View(now)).conns
    {
      hide D.Inv;
      ghost var d := View(now);
      InvAtAnyTime(View(0), now);
      if name in shores {
        var existing := shores[name];
        EntryIsServed(d, name);
        existing.Close();
        assert View(now).conns == D.CloseAt(d.conns, index[name]);
      } else {
        assert View(now).conns == d.conns;
      }
    }

    /** Stores a connection under its name. */
    method Store(shore: ShoreConnection, ghost c: nat, ghost now: int)
      requires Consistent() && c < |all| && all[c] == shore
      requires shore.View() == T.INIT
      modifies this, shore
      ensures all == old(all) && Consistent()
      ensures shores == old(shores)[shore.name := shore] && index == old(index)[shore.name := c]
      ensures shore.View() == T.INIT.(loop := T.Reading) && shore.lastPing == old(shore.lastPing)
      ensures View(now).conns == old(View(now)).conns[c := ConnOf(shore)]
    {
      hide Sound;
      ghost var conns := View(now).conns;
      shores := shores[shore.name := shore];
      index := index[shore.name := c];
      shore.loop := T.Reading;
      StillSound(T.INIT, shore.View());
      assert View(now).conns == conns[c := ConnOf(shore)];
    }

    /** Adds or replaces a connection; a previous connection of that name is closed. */
    method Register(shore: ShoreConnection, ghost c: nat, ghost now: int)
      requires Valid() && c < |all| && all[c] == shore && shore.loop == T.Starting
      modifies this, all
      ensures Valid() && all == old(all)
      ensures shores == old(shores)[shore.name := shore] && !shore.done
      ensures shore.name in old(shores) ==> old(shores)[shore.name].done
      ensures D.Step(old(View(now)), D.Enter(c)) == Some(View(now))
    {
      hide D.Step, D.Inv, Sound, D.CloseAt;
      ghost var d := View(now);
      assert d.conns[c] == ConnOf(shore);
      InvAtAnyTime(View(0), now);
      StartingIsFresh(d, c);
      assert shore.name in shores ==> shores[shore.name] != shore;
      CloseExisting(shore.name, now);
      ghost var closed := View(now).conns;
      assert closed[c] == ConnOf(shore);
      StartingUntouched(d, c, closed);
      Store(shore, c, now);
      EnterIs(d, c, View(now));
      D.StepKeeps(d, D.Enter(c));
      InvAtAnyTime(View(now), 0);
    }

    /** Removes whatever connection is stored under a name. */
    method Unregister(name: string)
      requires Linked()
      modifies this
      ensures Linked() && all == old(all)
      ensures shores == old(shores) - {name} && index == old(index) - {name}
    {
      shores := shores - {name};
      index := index - {name};
    }

    /** First half of the read loop's deferred function. */
    method DeferredUnregister(shore: ShoreConnection, ghost c: nat, ghost now: int)
      requires Valid() && c < |all| && all[c] == shore && shore.loop == T.Exiting
      modifies this, shore
      ensures Valid() && all == old(all) && shore.loop == T.Unregistered
      ensures shores == old(shores) - {shore.name}
      ensures D.Step(old(View(now)), D.Leave(c)) == Some(View(now))
    {
      hide D.Step, D.Inv, Sound;
      ghost var d := View(now);
      ghost var before := shore.View();
      InvAtAnyTime(View(0), now);
      Unregister(shore.name);
      shore.loop := T.Unregistered;
      assert View(now).conns == d.conns[c := d.conns[c].(tunnel := d.conns[c].tunnel.(loop := T.Unregistered))];
      LeaveIs(d, c, View(now));
      D.StepKeeps(d, D.Leave(c));
      StillSound(before, shore.View());
      InvAtAnyTime(View(now), 0);
    }

    /** Second half of the read loop's deferred function. */
    method DeferredClose(shore: ShoreConnection, ghost c: nat, ghost now: int)
      requires Valid() && c < |all| && all[c] == shore && shore.loop == T.Unregistered
      modifies shore
      ensures Valid() && shore.done
      ensures D.Step(old(View(now)), D.Inner(c, T.Loop(T.CloseOwn))) == Some(View(now))
    {
      hide D.Step, D.Inv, Sound;
      ghost var d := View(now);
      ghost var before := shore.View();
      InvAtAnyTime(View(0), now);
      shore.Close();
      shore.loop := T.Stopped;
      assert View(now).conns == d.conns[c := d.conns[c].(tunnel := d.conns[c].tunnel.(loop := T.Stopped, done := true))];
      CloseOwnIs(d, c, View(now));
      D.StepKeeps(d, D.Inner(c, T.Loop(T.CloseOwn)));
      StillSound(before, shore.View());
      InvAtAnyTime(View(now), 0);
    }

    /** The read loop's deferred function: Unregister by name, then Close. */
    method Cleanup(shore: ShoreConnection, ghost c: nat, ghost now: int) returns (ghost between: D.State)
      requires Valid() && c < |all| && all[c] == shore && shore.loop == T.Exiting
      modifies this, shore
      ensures Valid() && all == old(all)
      ensures shores == old(shores) - {shore.name} && shore.done
      ensures D.Step(old(View(now)), D.Leave(c)) == Some(between)
      ensures D.Step(between, D.Inner(c, T.Loop(T.CloseOwn))) == Some(View(now))
    {
      hide D.Step, View, Valid;
      DeferredUnregister(shore, c, now);
      between := View(now);
      DeferredClose(shore, c, now);
    }

    /** The named connection, if it is connected and owned by `owner`. */
    method GetByOwner(owner: string, name: string, ghost now: int) returns (shore: Option<ShoreConnection>)
      requires Valid()
      ensures shore.Some? <==> Registration.GetByOwner(View(now), owner, name).Some?
      ensures shore.Some? ==>
                && Registration.GetByOwner(View(now), owner, name).value < |all|
                && shore.value == all[Registration.GetByOwner(View(now), owner, name).value]
    {
      if name !in shores || shores[name].owner != owner {
        return None;
      }
      return Some(shores[name]);
    }

    /** A snapshot of the connections of one owner, in whatever order the map is walked. */
    method ListByOwner(owner: string) returns (out: seq<ShoreConnection>, ghost order: seq<string>)
      requires Valid()
      ensures IsOrder(order, shores.Keys) && out == Owned(shores, order, owner)
      ensures DistinctNames(out)
      ensures forall shore :: shore in out <==> shore in shores.Values && shore.owner == owner
    {
      hide Valid;
      out, order := [], [];
      var todo := shores.Keys;
      while todo != {}
        invariant todo <= shores.Keys && IsOrder(order, shores.Keys - todo)
        invariant out == Owned(shores, order, owner)
        decreases todo
      {
        var n :| n in todo;
        assert (order + [n])[..|order|] == order;
        if shores[n].owner == owner {
          out := out + [shores[n]];
        }
        order := order + [n];
        todo := todo - {n};
      }
      NamesAreKeys();
      OwnedHas(shores, order, owner);
    }

    /** The connection that Default picks when it walks the map in some order: the one with the least name. */
    method Default() returns (first: Option<ShoreConnection>, ghost order: seq<string>)
      requires Valid()
      ensures IsOrder(order, shores.Keys) && first == First(shores, order)
      ensures first.None? <==> shores == map[]
      ensures first.Some? ==>
                && first.value.name in shores && shores[first.value.name] == first.value
                && forall n :: n in shores && n != first.value.name ==> Text.Less(first.value.name, n)
    {
      hide Valid;
      first, order := None, [];
      var todo := shores.Keys;
      while todo != {}
        invariant todo <= shores.Keys && IsOrder(order, shores.Keys - todo)
        invariant first == First(shores, order)
        decreases todo
      {
        var n :| n in todo;
        assert (order + [n])[..|order|] == order;
        if first.None? || Text.Less(shores[n].name, first.value.name) {
          first := Some(shores[n]);
        }
        order := order + [n];
        todo := todo - {n};
      }
      NamesAreKeys();
      DefaultSameForAllOrders(shores, order, order);
    }

    /** The reaper looks at one entry of the map it is walking. */
    method ReapEntry(n: string, now: int)
      requires Consistent()
      requires n in shores && shores[n].loop != T.Starting
      modifies this, shores[n]
      ensures all == old(all) && Consistent()
      ensures View(now) == ReapedEntry(old(View(now)), n)
      ensures shores.Keys == if now - old(shores[n].lastPing) > D.STALE then old(shores).Keys - {n} else old(shores).Keys
    {
      hide Sound;
      var shore := shores[n];
      ghost var d := View(now);
      assert d.conns[index[n]] == ConnOf(shore);
      if now - shore.lastPing > D.STALE {
        shore.Close();
        assert View(now).conns == D.CloseAt(d.conns, index[n]);
        shores := shores - {n};
        index := index - {n};
        assert View(now).conns == D.CloseAt(d.conns, d.shores[n]);
      }
    }

    /** The reaper, having looked at the entries of some names, looks at one more. */
    method ReapNext(n: string, now: int, ghost d: D.State, ghost seen: set<string>)
      requires Consistent() && View(now) == ReapedSome(d, seen)
      requires D.Inv(d) && n in d.shores && n !in seen && n in shores
      modifies this, all
      ensures all == old(all) && Consistent() && View(now) == ReapedSome(d, seen + {n})
      ensures old(shores).Keys - {n} <= shores.Keys
    {
      hide D.Inv, Consistent, ReapedSome, ReapedEntry, View;
      Seen(now);
      StillServed(d, seen, n);
      ReapEntry(n, now);
      OneMoreReaped(d, seen, n);
    }

    /** One pass of the reaper.  The map may be walked in any order, entries being deleted from it on
        the way; the result is the same. */
    method Reap(now: int)
      requires Valid()
      modifies this, all
      ensures Valid() && all == old(all)
      ensures View(now) == D.ReapAll(old(View(now)))
      ensures D.Step(old(View(now)), D.Reap) == Some(View(now))
    {
      hide D.Inv, D.Step, D.ReapAll, Consistent, ReapedSome, View;
      ghost var d := View(now);
      Seen(now);
      InvAtAnyTime(View(0), now);
      NothingReapedYet(d);
      var todo := shores.Keys;
      ghost var seen: set<string> := {};
      assert d.shores.Keys - d.shores.Keys == seen;
      while todo != {}
        invariant all == old(all) && Consistent()
        invariant todo <= shores.Keys && todo <= d.shores.Keys && seen == d.shores.Keys - todo
        invariant View(now) == ReapedSome(d, seen)
        decreases todo
      {
        var n :| n in todo;
        ReapNext(n, now, d, seen);
        todo := todo - {n};
        seen := seen + {n};
      }
      assert seen == d.shores.Keys;
      AllReaped(d);
      Seen(now);
      D.StepKeeps(d, D.Reap);
      InvAtAnyTime(View(now), 0);
    }

    lemma Seen(now: int)
      requires Consistent()
      ensures View(now).now == now && View(0) == View(now).(now := 0)
      ensures View(now).shores == index && index.Keys == shores.Keys
      ensures forall n :: n in shores ==>
                index[n] < |View(now).conns| && View(now).conns[index[n]] == ConnOf(shores[n]) && shores[n] in all
    {
    }

    lemma NamesAreKeys()
      requires Valid()
      ensures forall n :: n in shores ==> shores[n].name == n
    {
      forall n | n in shores ensures shores[n].name == n {
        assert D.EntrySound(View(0), n);
        assert View(0).conns[index[n]] == ConnOf(all[index[n]]);
      }
    }
  }

  /** The registry after the reaper has looked at one entry. */
  function ReapedEntry(d: D.State, n: string): D.State
    requires n in d.shores
  {
    if D.Stale(d, d.shores[n])
    then d.(conns := D.CloseAt(d.conns, d.shores[n]), shores := d.shores - {n})
    else d
  }

  /** The registry after the reaper has looked at the entries of these names. */
  ghost function ReapedSome(d: D.State, seen: set<string>): D.State {
    var closed := set n | n in d.shores && n in seen && D.Stale(d, d.shores[n]) :: d.shores[n];
    d.(conns := seq(|d.conns|, c requires 0 <= c < |d.conns| => if c in closed then D.Close(d.conns[c]) else d.conns[c]),
       shores := map n | n in d.shores && !(n in seen && D.Stale(d, d.shores[n])) :: d.shores[n])
  }

  lemma NothingReapedYet(d: D.State)
    ensures ReapedSome(d, d.shores.Keys - d.shores.Keys) == d
  {
    var seen := d.shores.Keys - d.shores.Keys;
    assert ReapedSome(d, seen).conns == d.conns;
    assert ReapedSome(d, seen).shores == d.shores;
  }

  lemma AllReaped(d: D.State)
    requires D.Inv(d)
    ensures ReapedSome(d, d.shores.Keys) == D.ReapAll(d)
    ensures D.Step(d, D.Reap) == Some(D.ReapAll(d))
  {
    assert (set n | n in d.shores && n in d.shores.Keys && D.Stale(d, d.shores[n]) :: d.shores[n]) == D.Reaped(d);
    assert ReapedSome(d, d.shores.Keys).conns == D.ReapAll(d).conns;
    assert ReapedSome(d, d.shores.Keys).shores == D.ReapAll(d).shores;
  }

  lemma StillServed(d: D.State, seen: set<string>, n: string)
    requires D.Inv(d) && n in d.shores && n !in seen
    ensures n in ReapedSome(d, seen).shores && ReapedSome(d, seen).shores[n] == d.shores[n] < |d.conns|
    ensures !ReapedSome(d, seen).conns[d.shores[n]].tunnel.loop.Starting?
  {
    assert D.EntrySound(d, n);
  }

  lemma OneMoreReaped(d: D.State, seen: set<string>, n: string)
    requires D.Inv(d) && n in d.shores && n !in seen
    ensures n in ReapedSome(d, seen).shores
    ensures ReapedEntry(ReapedSome(d, seen), n) == ReapedSome(d, seen + {n})
  {
    var some, more := ReapedSome(d, seen), ReapedSome(d, seen + {n});
    assert D.EntrySound(d, n);
    assert D.Stale(some, some.shores[n]) <==> D.Stale(d, d.shores[n]);
    assert ReapedEntry(some, n).conns == more.conns;
    assert ReapedEntry(some, n).shores == more.shores;
  }

  lemma EntryIsServed(d: D.State, n: string)
    requires D.Inv(d) && n in d.shores
    ensures d.shores[n] < |d.conns| && d.conns[d.shores[n]].name == n && !d.conns[d.shores[n]].tunnel.loop.Starting?
  {
    assert D.EntrySound(d, n);
  }

  lemma StartingIsFresh(d: D.State, c: nat)
    requires D.Inv(d) && c < |d.conns| && d.conns[c].tunnel.loop.Starting?
    ensures d.conns[c].tunnel == T.INIT
    ensures d.conns[c].name in d.shores ==> d.shores[d.conns[c].name] != c
  {
    assert D.ConnSound(d.conns[c].tunnel);
    if d.conns[c].name in d.shores {
      assert D.EntrySound(d, d.conns[c].name);
    }
  }

  lemma StartingUntouched(d: D.State, c: nat, closed: seq<D.Conn>)
    requires c < |d.conns| && (d.conns[c].name in d.shores ==> d.shores[d.conns[c].name] != c)
    requires closed == if d.conns[c].name in d.shores then D.CloseAt(d.conns, d.shores[d.conns[c].name]) else d.conns
    ensures c < |closed| && closed[c] == d.conns[c]
  {
  }

  lemma EnterIs(d: D.State, c: nat, d': D.State)
    requires c < |d.conns| && d.conns[c].tunnel == T.INIT
    requires d.conns[c].name in d.shores ==> d.shores[d.conns[c].name] != c
    requires var conns := if d.conns[c].name in d.shores then D.CloseAt(d.conns, d.shores[d.conns[c].name]) else d.conns;
             && c < |conns|
             && d' == D.State(conns[c := conns[c].(tunnel := conns[c].tunnel.(loop := T.Reading))],
                              d.shores[d.conns[c].name := c], d.now)
    ensures D.Step(d, D.Enter(c)) == Some(d')
  {
  }

  lemma LeaveIs(d: D.State, c: nat, d': D.State)
    requires c < |d.conns| && d.conns[c].tunnel.loop == T.Exiting
    requires d' == D.State(d.conns[c := d.conns[c].(tunnel := d.conns[c].tunnel.(loop := T.Unregistered))],
                           d.shores - {d.conns[c].name}, d.now)
    ensures D.Step(d, D.Leave(c)) == Some(d')
  {
  }

  lemma CloseOwnIs(d: D.State, c: nat, d': D.State)
    requires c < |d.conns| && d.conns[c].tunnel.loop == T.Unregistered
    requires d' == D.State(d.conns[c := d.conns[c].(tunnel := d.conns[c].tunnel.(loop := T.Stopped, done := true))],
                           d.shores, d.now)
    ensures D.Step(d, D.Inner(c, T.Loop(T.CloseOwn))) == Some(d')
  {
  }

  /** Leaving and closing disturb neither requests nor streams. */
  lemma StillSound(s: T.State, s': T.State)
    requires Sound(s) && s'.http == s.http && s'.sse == s.sse && (s.done ==> s'.done)
    requires !s'.loop.Answering? && !s'.loop.Framing? && !s'.loop.Ending?
    ensures Sound(s')
  {
    forall t | 0 <= t < |s.sse.strs| && s.sse.strs[t].phase.Cutting?
      ensures Connection.Streams.CutterSound(s', t)
    {
      assert Connection.Streams.CutterSound(s, t);
    }
  }

  lemma InvAtAnyTime(d: D.State, now: int)
    requires D.Inv(d)
    ensures D.Inv(d.(now := now))
  {
  }
}
