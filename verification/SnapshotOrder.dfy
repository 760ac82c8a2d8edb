/** The rows of a snapshot (Snapshot, internal/engine/store.go). The informer lists its
    cache in no particular order and the rows are then sorted by namespace and name with a
    sort that need not be stable; this is when the outcome depends on the cache alone. */
module SnapshotOrder {
  import opened Text
  import opened Rows
  import opened StableSorting
  import opened Picking

  /** The rows of the objects that have one, in listing order. */
  function Projected<O>(objs: seq<O>, proj: O -> Option<Row>): seq<Row> {
    if objs == [] then []
    else (if proj(objs[0]).Some? then [proj(objs[0]).value] else []) + Projected(objs[1..], proj)
  }

  lemma {:induction false} ProjectedAppend<O>(a: seq<O>, b: seq<O>, proj: O -> Option<Row>)
    ensures Projected(a + b, proj) == Projected(a, proj) + Projected(b, proj)
  {
    if a == [] {
      assert a + b == b;
    } else {
      Uncons(a, b);
      ProjectedAppend(a[1..], b, proj);
      Assoc(if proj(a[0]).Some? then [proj(a[0]).value] else [], Projected(a[1..], proj), Projected(b, proj));
    }
  }

  /** Snapshot's projection loop. */
  method ProjectAll<O>(objs: seq<O>, proj: O -> Option<Row>) returns (rows: seq<Row>)
    ensures rows == Projected(objs, proj)
  {
    rows := [];
    for i := 0 to |objs|
      invariant rows == Projected(objs[..i], proj)
    {
      assert objs[..i + 1] == objs[..i] + [objs[i]] && [objs[i]][1..] == [];
      ProjectedAppend(objs[..i], [objs[i]], proj);
      if proj(objs[i]).Some? {
        rows := rows + [proj(objs[i]).value];
      }
    }
    assert objs[..|objs|] == objs;
  }

  /** By namespace, then by name. */
  predicate NameLess(a: Row, b: Row) {
    if a.namespace != b.namespace then StrLess(a.namespace, b.namespace) else StrLess(a.name, b.name)
  }

  lemma NameLessOrder(a: Row, b: Row, c: Row)
    ensures !(NameLess(a, b) && NameLess(b, a))
    ensures NameLess(a, c) ==> NameLess(a, b) || NameLess(b, c)
    ensures Ties(a, b, NameLess) <==> a.namespace == b.namespace && a.name == b.name
  {
    StrLessOrder(a.namespace, b.namespace, c.namespace);
    StrLessOrder(a.namespace, c.namespace, b.namespace);
    StrLessOrder(b.namespace, c.namespace, a.namespace);
    StrLessOrder(a.name, b.name, c.name);
    StrLessOrder(a.name, a.name, a.name);
  }

  lemma NameLessIsWeak(s: seq<Row>)
    ensures WeakOn(s, NameLess)
  {
    forall x, y, z
      ensures (NameLess(x, y) ==> !NameLess(y, x)) && (NameLess(x, z) ==> NameLess(x, y) || NameLess(y, z))
    {
      NameLessOrder(x, y, z);
    }
  }

  /** What the sort promises: the same rows, in order. */
  ghost predicate Sorts<T>(s: seq<T>, sorted: seq<T>, less: (T, T) -> bool) {
    multiset(sorted) == multiset(s) && Ordered(sorted, less)
  }

  ghost predicate NoTies<T(!new)>(s: seq<T>, less: (T, T) -> bool) {
    forall x, y :: x in s && y in s && x != y ==> !Ties(x, y, less)
  }

  lemma OrderedTail<T>(s: seq<T>, less: (T, T) -> bool)
    requires Ordered(s, less) && s != []
    ensures Ordered(s[1..], less) && forall x :: x in s[1..] ==> !less(x, s[0])
  {
  }

  lemma TailsAgree<T>(a: seq<T>, b: seq<T>)
    requires multiset(a) == multiset(b) && a != [] && b != [] && a[0] == b[0]
    ensures multiset(a[1..]) == multiset(b[1..])
  {
    assert a == [a[0]] + a[1..] && b == [b[0]] + b[1..];
    assert multiset(a[1..]) == multiset(a) - multiset{a[0]};
    assert multiset(b[1..]) == multiset(b) - multiset{b[0]};
  }

  lemma HeadsTie<T>(a: seq<T>, b: seq<T>, less: (T, T) -> bool)
    requires Ordered(a, less) && Ordered(b, less) && a != [] && b != [] && a[0] in b && b[0] in a
    ensures a[0] == b[0] || Ties(a[0], b[0], less)
  {
    if a[0] != b[0] {
      OrderedTail(a, less);
      OrderedTail(b, less);
      assert a[0] in b[1..] && b[0] in a[1..];
    }
  }

  /** Without ties between different elements the sorted order is determined. */
  lemma {:induction false} SortedIsUnique<T(!new)>(a: seq<T>, b: seq<T>, less: (T, T) -> bool)
    requires multiset(a) == multiset(b) && Ordered(a, less) && Ordered(b, less) && NoTies(a, less)
    ensures a == b
    decreases |a|
  {
    SameElements(a, b);
    if a != [] {
      HeadsTie(a, b, less);
      var x, y := a[0], b[0];
      assert x in a && y in a;
      TailsAgree(a, b);
      OrderedTail(a, less);
      OrderedTail(b, less);
      assert forall z :: z in a[1..] ==> z in a;
      SortedIsUnique(a[1..], b[1..], less);
      assert a == [x] + a[1..] && b == [y] + b[1..];
    }
  }

  lemma TieChain<T(!new)>(s: seq<T>, p: T, q: T, x: T, y: T, less: (T, T) -> bool)
    requires WeakOn(s, less) && p in s && q in s && x in s && y in s
    requires Ties(x, p, less) && Ties(y, q, less) && !less(q, p)
    ensures !less(y, x)
  {
    assert less(y, x) ==> less(y, p) || less(p, x);
    assert less(y, p) ==> less(y, q) || less(q, p);
  }

  lemma SwapIsPermutation<T>(a: seq<T>, i: nat, j: nat)
    requires i < j < |a|
    ensures multiset(a[i := a[j]][j := a[i]]) == multiset(a)
  {
  }

  lemma SwappedPair<T(!new)>(a: seq<T>, i: nat, j: nat, p: nat, q: nat, less: (T, T) -> bool)
    requires WeakOn(a, less) && Ordered(a, less) && i < j < |a| && Ties(a[i], a[j], less) && p < q < |a|
    ensures var b := a[i := a[j]][j := a[i]]; !less(b[q], b[p])
  {
    var b := a[i := a[j]][j := a[i]];
    assert a[p] in a && a[q] in a && a[i] in a && a[j] in a;
    assert b[p] == a[p] || (p == i && b[p] == a[j]) || (p == j && b[p] == a[i]);
    assert b[q] == a[q] || (q == i && b[q] == a[j]) || (q == j && b[q] == a[i]);
    TieChain(a, a[p], a[q], b[p], b[q], less);
  }

  /** Exchanging two elements that tie keeps the order. */
  lemma SwapKeepsOrder<T(!new)>(a: seq<T>, i: nat, j: nat, less: (T, T) -> bool)
    requires WeakOn(a, less) && Ordered(a, less) && i < j < |a| && Ties(a[i], a[j], less)
    ensures Sorts(a, a[i := a[j]][j := a[i]], less)
  {
    var b := a[i := a[j]][j := a[i]];
    SwapIsPermutation(a, i, j);
    forall p, q | 0 <= p < q < |b| ensures !less(b[q], b[p]) {
      SwappedPair(a, i, j, p, q, less);
    }
  }

  /** A tie between different elements gives a second sorted order. */
  lemma TieGivesTwoOrders<T(!new)>(s: seq<T>, x: T, y: T, less: (T, T) -> bool) returns (a: seq<T>, b: seq<T>)
    requires WeakOn(s, less) && x in s && y in s && x != y && Ties(x, y, less)
    ensures Sorts(s, a, less) && Sorts(s, b, less) && a != b
  {
    a := StableSort(s, less);
    SortOrdered(s, less);
    SameElements(a, s);
    assert x in a && y in a;
    var i :| 0 <= i < |a| && a[i] == x;
    var j :| 0 <= j < |a| && a[j] == y;
    var lo, hi := if i < j then i else j, if i < j then j else i;
    SwapKeepsOrder(a, lo, hi, less);
    b := a[lo := a[hi]][hi := a[lo]];
    assert b[lo] == a[hi] && a[hi] != a[lo];
  }

  /** The sorted order is determined by the elements alone if and only if no two different
      elements tie. */
  lemma OrderIsDeterminedIff<T(!new)>(s: seq<T>, less: (T, T) -> bool)
    requires WeakOn(s, less)
    ensures (forall a, b :: Sorts(s, a, less) && Sorts(s, b, less) ==> a == b) <==> NoTies(s, less)
  {
    if NoTies(s, less) {
      forall a, b | Sorts(s, a, less) && Sorts(s, b, less) ensures a == b {
        SameElements(a, s);
        SortedIsUnique(a, b, less);
      }
    } else {
      var x, y :| x in s && y in s && x != y && Ties(x, y, less);
      var a, b := TieGivesTwoOrders(s, x, y, less);
    }
  }

  /** Listing the cache in another order lists the same rows. */
  lemma {:induction false} ProjectedIsPermuted<O>(a: seq<O>, b: seq<O>, proj: O -> Option<Row>)
    requires multiset(a) == multiset(b)
    ensures multiset(Projected(a, proj)) == multiset(Projected(b, proj))
  {
    SameElements(a, b);
    if a != [] {
      var o := a[0];
      assert o in b;
      var j :| 0 <= j < |b| && b[j] == o;
      var moved := [o] + (b[..j] + b[j + 1..]);
      assert b == b[..j] + [o] + b[j + 1..];
      MovedToFront(b[..j], [o], b[j + 1..], proj);
      Rotated(b[..j], [o], b[j + 1..]);
      TailsAgree(a, moved);
      assert moved[1..] == b[..j] + b[j + 1..];
      ProjectedIsPermuted(a[1..], moved[1..], proj);
    }
  }

  lemma MovedToFront<O>(l: seq<O>, m: seq<O>, r: seq<O>, proj: O -> Option<Row>)
    ensures multiset(Projected(l + m + r, proj)) == multiset(Projected(m + (l + r), proj))
  {
    ProjectedAppend(l + m, r, proj);
    ProjectedAppend(l, m, proj);
    ProjectedAppend(l, r, proj);
    ProjectedAppend(m, l + r, proj);
    Rotated(Projected(l, proj), Projected(m, proj), Projected(r, proj));
  }

  lemma Rotated<T>(x: seq<T>, y: seq<T>, z: seq<T>)
    ensures multiset(x + y + z) == multiset(y + (x + z))
  {
    assert multiset(x + y + z) == multiset(x) + multiset(y) + multiset(z);
    assert multiset(y + (x + z)) == multiset(y) + (multiset(x) + multiset(z));
  }

  /** The order itself: by namespace first, and by name within one. */
  lemma NamespaceFirst(s: seq<Row>, sorted: seq<Row>, i: nat, j: nat)
    requires Sorts(s, sorted, NameLess) && i < j < |sorted|
    ensures var a, b := sorted[i], sorted[j];
            StrLess(a.namespace, b.namespace) || (a.namespace == b.namespace && !StrLess(b.name, a.name))
  {
    StrLessOrder(sorted[i].namespace, sorted[j].namespace, "");
  }

  /** The rows are those of the objects that project, one each and in listing order. */
  lemma {:induction false} ProjectedIs<O>(objs: seq<O>, proj: O -> Option<Row>) returns (idx: seq<nat>)
    ensures Increasing(idx) && |Projected(objs, proj)| == |idx|
    ensures forall i: nat :: i in idx <==> i < |objs| && proj(objs[i]).Some?
    ensures forall k :: 0 <= k < |idx| ==> idx[k] < |objs| && Some(Projected(objs, proj)[k]) == proj(objs[idx[k]])
  {
    var has: O -> bool := (o: O) => proj(o).Some?;
    idx := PickIsSelection(objs, has);
    ProjectedIsPicked(objs, proj, has);
  }

  lemma {:induction false} ProjectedIsPicked<O>(objs: seq<O>, proj: O -> Option<Row>, has: O -> bool)
    requires forall o {:trigger has(o)} :: has(o) <==> proj(o).Some?
    ensures |Projected(objs, proj)| == |Pick(objs, has)|
    ensures forall k :: 0 <= k < |Pick(objs, has)| ==> proj(Pick(objs, has)[k]) == Some(Projected(objs, proj)[k])
  {
    if objs != [] {
      ProjectedIsPicked(objs[1..], proj, has);
    }
  }

  ghost predicate DistinctNames(rows: seq<Row>) {
    forall x, y :: x in rows && y in rows && x != y ==> x.namespace != y.namespace || x.name != y.name
  }

  /** Two snapshots of one cache show the same rows in the same order, however the cache
      was listed and whatever sort was used, when different rows differ in namespace or name. */
  lemma SnapshotIsDetermined<O>(a: seq<O>, b: seq<O>, proj: O -> Option<Row>, x: seq<Row>, y: seq<Row>)
    requires multiset(a) == multiset(b) && DistinctNames(Projected(a, proj))
    requires Sorts(Projected(a, proj), x, NameLess) && Sorts(Projected(b, proj), y, NameLess)
    ensures x == y
  {
    ProjectedIsPermuted(a, b, proj);
    var s := Projected(a, proj);
    SameElements(x, s);
    forall p, q | p in x && q in x && p != q ensures !Ties(p, q, NameLess) {
      NameLessOrder(p, q, q);
    }
    SortedIsUnique(x, y, NameLess);
  }

  /** The condition is exact: otherwise one listing already has two sorted outcomes. */
  lemma SnapshotIsDeterminedIff(s: seq<Row>)
    ensures (forall x, y :: Sorts(s, x, NameLess) && Sorts(s, y, NameLess) ==> x == y) <==> DistinctNames(s)
  {
    NameLessIsWeak(s);
    OrderIsDeterminedIff(s, NameLess);
    forall x, y
      ensures Ties(x, y, NameLess) <==> x.namespace == y.namespace && x.name == y.name
    {
      NameLessOrder(x, y, y);
    }
  }
}
