/**
 Go walks a map in an unspecified order.  Because every registered connection is stored under its own
 name, nothing that is computed from such a walk depends on the order.
 */
module OrderIndependence {
  import opened Wrappers
  import opened Connection
  import Text

  /** An order in which Go's `range` may walk a map: each key once. */
  ghost predicate IsOrder(order: seq<string>, keys: set<string>) {
    && (forall i, j :: 0 <= i < j < |order| ==> order[i] != order[j])
    && (forall n :: n in keys <==> n in order)
  }

  /** What ListByOwner collects when it walks the map in this order. */
  function Owned(shores: map<string, ShoreConnection>, order: seq<string>, owner: string): seq<ShoreConnection>
    requires forall n :: n in order ==> n in shores
  {
    if order == [] then []
    else
      var n := order[|order|-1];
      Owned(shores, order[..|order|-1], owner) + (if shores[n].owner == owner then [shores[n]] else [])
  }

  /** What Default holds after it has walked the map in this order. */
  function First(shores: map<string, ShoreConnection>, order: seq<string>): Option<ShoreConnection>
    requires forall n :: n in order ==> n in shores
  {
    if order == [] then None
    else
      var shore := shores[order[|order|-1]];
      var first := First(shores, order[..|order|-1]);
      if first.None? || Text.Less(shore.name, first.value.name) then Some(shore) else first
  }

  /** What every reachable registry satisfies (`ShoreRegistry.NamesAreKeys`). */
  ghost predicate OwnNames(shores: map<string, ShoreConnection>) {
    forall n :: n in shores ==> shores[n].name == n
  }

  // ---------------------------------------------------------------- Default

  lemma {:induction false} FirstIsLeast(shores: map<string, ShoreConnection>, order: seq<string>)
    requires forall n :: n in order ==> n in shores
    ensures First(shores, order).None? <==> order == []
    ensures First(shores, order).Some? ==> exists n :: n in order && First(shores, order).value == shores[n]
    ensures First(shores, order).Some? ==>
              forall n :: n in order ==> !Text.Less(shores[n].name, First(shores, order).value.name)
  {
    if order != [] {
      var front, n := order[..|order|-1], order[|order|-1];
      FirstIsLeast(shores, front);
      var before, now := First(shores, front), First(shores, order);
      Text.LessIsTotal(shores[n].name, shores[n].name);
      assert now.value == shores[n] || (before.Some? && now == before);
      forall m | m in order ensures !Text.Less(shores[m].name, now.value.name) {
        if m in front && now != before && before.Some? && Text.Less(shores[m].name, now.value.name) {
          Text.LessIsTransitive(shores[m].name, shores[n].name, before.value.name);
        }
      }
    }
  }

  /** Default gives the same connection however the map is walked: the lexicographically first. */
  lemma DefaultSameForAllOrders(shores: map<string, ShoreConnection>, order: seq<string>, other: seq<string>)
    requires OwnNames(shores) && IsOrder(order, shores.Keys) && IsOrder(other, shores.Keys)
    ensures First(shores, order) == First(shores, other)
    ensures First(shores, order).Some? <==> shores != map[]
    ensures First(shores, order).Some? ==>
              var first := First(shores, order).value;
              && first.name in shores && shores[first.name] == first
              && forall n :: n in shores && n != first.name ==> Text.Less(first.name, n)
  {
    FirstIsLeast(shores, order);
    FirstIsLeast(shores, other);
    if order == [] {
      assert shores.Keys == {};
    } else {
      assert order[0] in shores;
      var a, b := First(shores, order).value, First(shores, other).value;
      Text.LessIsTotal(a.name, b.name);
      forall n | n in shores && n != a.name ensures Text.Less(a.name, n) {
        Text.LessIsTotal(a.name, n);
      }
    }
  }

  // ---------------------------------------------------------------- ListByOwner and the status page

  ghost predicate DistinctNames(xs: seq<ShoreConnection>) {
    forall i, j :: 0 <= i < j < |xs| ==> xs[i].name != xs[j].name
  }

  lemma {:induction false} OwnedHas(shores: map<string, ShoreConnection>, order: seq<string>, owner: string)
    requires OwnNames(shores)
    requires forall n :: n in order ==> n in shores
    requires forall i, j :: 0 <= i < j < |order| ==> order[i] != order[j]
    ensures var out := Owned(shores, order, owner);
            && (forall i :: 0 <= i < |out| ==>
                  out[i].name in order && shores[out[i].name] == out[i] && out[i].owner == owner)
            && (forall n :: n in order && shores[n].owner == owner ==> shores[n] in out)
    ensures DistinctNames(Owned(shores, order, owner))
  {
    if order != [] {
      var front, n := order[..|order|-1], order[|order|-1];
      OwnedHas(shores, front, owner);
      assert order == front + [n];
      assert n !in front;
      var some, out := Owned(shores, front, owner), Owned(shores, order, owner);
      forall i, j | 0 <= i < j < |out| ensures out[i].name != out[j].name {
        assert out[i] == some[i] && some[i].name in front;
        assert out[j] == if j < |some| then some[j] else shores[n];
      }
    }
  }

  /** `GetByOwner(owner, name)` agrees with searching the snapshot of `ListByOwner(owner)` for the name,
      in whatever order the snapshot was made. */
  lemma GetAgreesWithList(shores: map<string, ShoreConnection>, order: seq<string>, owner: string, name: string, shore: ShoreConnection)
    requires OwnNames(shores) && IsOrder(order, shores.Keys)
    ensures (shore in Owned(shores, order, owner) && shore.name == name) <==>
            (name in shores && shores[name] == shore && shore.owner == owner)
  {
    OwnedHas(shores, order, owner);
  }

  /** What `sort.Slice` by name may leave behind: a rearrangement with no two neighbours out of order. */
  ghost predicate SortOf(list: seq<ShoreConnection>, sorted: seq<ShoreConnection>) {
    && multiset(sorted) == multiset(list)
    && (forall i, j :: 0 <= i < j < |sorted| ==> !Text.Less(sorted[j].name, sorted[i].name))
  }

  ghost predicate StrictlySorted(xs: seq<ShoreConnection>) {
    forall i, j :: 0 <= i < j < |xs| ==> Text.Less(xs[i].name, xs[j].name)
  }

  lemma {:induction false} AtMostOnce(xs: seq<ShoreConnection>, x: ShoreConnection)
    requires forall i, j :: 0 <= i < j < |xs| ==> xs[i] != xs[j]
    ensures multiset(xs)[x] <= 1
  {
    if xs != [] {
      AtMostOnce(xs[1..], x);
      assert xs == [xs[0]] + xs[1..];
      if x == xs[0] {
        assert x !in xs[1..];
        assert x !in multiset(xs[1..]);
      }
    }
  }

  lemma TwiceCounts(xs: seq<ShoreConnection>, i: nat, j: nat)
    requires i < j < |xs| && xs[i] == xs[j]
    ensures multiset(xs)[xs[i]] >= 2
  {
    assert xs == xs[..i] + [xs[i]] + xs[i+1..j] + [xs[j]] + xs[j+1..];
  }

  lemma SortIsStrict(list: seq<ShoreConnection>, sorted: seq<ShoreConnection>)
    requires SortOf(list, sorted)
    requires DistinctNames(list)
    ensures StrictlySorted(sorted)
    ensures forall x :: x in sorted <==> x in list
  {
    forall x ensures x in sorted <==> x in list {
      assert x in sorted <==> x in multiset(sorted);
      assert x in list <==> x in multiset(list);
    }
    forall i, j | 0 <= i < j < |sorted| ensures Text.Less(sorted[i].name, sorted[j].name) {
      Text.LessIsTotal(sorted[i].name, sorted[j].name);
      if sorted[i].name == sorted[j].name {
        assert sorted[i] in list && sorted[j] in list;
        TwiceCounts(sorted, i, j);
        AtMostOnce(list, sorted[i]);
      }
    }
  }

  lemma {:induction false} SortedOnce(xs: seq<ShoreConnection>, ys: seq<ShoreConnection>)
    requires StrictlySorted(xs) && StrictlySorted(ys)
    requires forall x :: x in xs <==> x in ys
    ensures xs == ys
  {
    assert ys != [] ==> ys[0] in ys;
    if xs != [] {
      assert xs[0] in ys && ys != [] && ys[0] in xs;
      Text.LessIsTotal(xs[0].name, ys[0].name);
      assert xs[0] == ys[0];
      forall x ensures x in xs[1..] <==> x in ys[1..] {
        Text.LessIsTotal(xs[0].name, xs[0].name);
        if x in xs[1..] {
          assert x in xs && x != xs[0];
        }
        if x in ys[1..] {
          assert x in ys && x != ys[0];
        }
      }
      SortedOnce(xs[1..], ys[1..]);
      assert xs == [xs[0]] + xs[1..] && ys == [ys[0]] + ys[1..];
    }
  }

  lemma SameElements(shores: map<string, ShoreConnection>, owner: string, order: seq<string>, other: seq<string>)
    requires OwnNames(shores) && IsOrder(order, shores.Keys) && IsOrder(other, shores.Keys)
    ensures forall x :: x in Owned(shores, order, owner) <==> x in Owned(shores, other, owner)
  {
    OwnedHas(shores, order, owner);
    OwnedHas(shores, other, owner);
  }

  /** The status page lists the same connections in the same order, however the map was walked and
      whichever of its possible results the unstable sort produced. */
  lemma StatusSameForAllOrders(shores: map<string, ShoreConnection>, owner: string,
                               order: seq<string>, sorted: seq<ShoreConnection>,
                               other: seq<string>, otherSorted: seq<ShoreConnection>)
    requires OwnNames(shores) && IsOrder(order, shores.Keys) && IsOrder(other, shores.Keys)
    requires SortOf(Owned(shores, order, owner), sorted)
    requires SortOf(Owned(shores, other, owner), otherSorted)
    ensures sorted == otherSorted && StrictlySorted(sorted)
    ensures forall i :: 0 <= i < |sorted| ==>
              sorted[i].name in shores && shores[sorted[i].name] == sorted[i] && sorted[i].owner == owner
    ensures forall n :: n in shores && shores[n].owner == owner ==> shores[n] in sorted
  {
    OwnedHas(shores, order, owner);
    OwnedHas(shores, other, owner);
    SortIsStrict(Owned(shores, order, owner), sorted);
    SortIsStrict(Owned(shores, other, owner), otherSorted);
    SameElements(shores, owner, order, other);
    assert forall i :: 0 <= i < |sorted| ==> sorted[i] in Owned(shores, order, owner);
    SortedOnce(sorted, otherSorted);
  }
}
