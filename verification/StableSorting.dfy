/** What a stable sort promises, and that the promise has exactly one outcome. */
module StableSorting {
  import opened Text

  /** The comparator is a strict weak order on the elements of s. */
  ghost predicate WeakOn<T(!new)>(s: seq<T>, less: (T, T) -> bool) {
    && (forall x, y :: x in s && y in s && less(x, y) ==> !less(y, x))
    && (forall x, y, z :: x in s && y in s && z in s && less(x, z) ==> less(x, y) || less(y, z))
  }

  ghost predicate Ordered<T>(s: seq<T>, less: (T, T) -> bool) {
    forall i, j :: 0 <= i < j < |s| ==> !less(s[j], s[i])
  }

  predicate Ties<T>(x: T, y: T, less: (T, T) -> bool) { !less(x, y) && !less(y, x) }

  /** The elements of s that tie with x, in order. */
  function Class<T>(s: seq<T>, x: T, less: (T, T) -> bool): seq<T> {
    if s == [] then []
    else (if Ties(s[0], x, less) then [s[0]] else []) + Class(s[1..], x, less)
  }

  /** Elements that tie keep their order. */
  ghost predicate Stable<T(!new)>(s: seq<T>, sorted: seq<T>, less: (T, T) -> bool) {
    forall x :: x in s ==> Class(sorted, x, less) == Class(s, x, less)
  }

  function Insert<T>(x: T, s: seq<T>, less: (T, T) -> bool): (r: seq<T>)
    ensures multiset(r) == multiset(s) + multiset{x}
  {
    if s == [] then [x]
    else if less(s[0], x) then
      var r := [s[0]] + Insert(x, s[1..], less);
      assert s == [s[0]] + s[1..];
      r
    else
      assert multiset([x] + s) == multiset{x} + multiset(s);
      [x] + s
  }

  function StableSort<T>(s: seq<T>, less: (T, T) -> bool): (r: seq<T>)
    ensures multiset(r) == multiset(s)
  {
    if s == [] then []
    else
      assert s == [s[0]] + s[1..];
      Insert(s[0], StableSort(s[1..], less), less)
  }

  lemma SameElements<T>(a: seq<T>, b: seq<T>)
    requires multiset(a) == multiset(b)
    ensures |a| == |b| && forall x :: x in a <==> x in b
  {
    assert |multiset(a)| == |a| && |multiset(b)| == |b|;
    forall x ensures x in a <==> x in b {
      assert x in a <==> x in multiset(a);
      assert x in b <==> x in multiset(b);
    }
  }

  lemma {:induction false} InsertOrdered<T(!new)>(x: T, s: seq<T>, less: (T, T) -> bool)
    requires WeakOn([x] + s, less) && Ordered(s, less)
    ensures Ordered(Insert(x, s, less), less)
    decreases |s|
  {
    var r := Insert(x, s, less);
    assert forall y :: y in s ==> y in [x] + s;
    assert x in [x] + s;
    if s != [] {
      if less(s[0], x) {
        assert forall y :: y in [x] + s[1..] ==> y in [x] + s;
        InsertOrdered(x, s[1..], less);
        var tail := Insert(x, s[1..], less);
        forall j | 0 <= j < |tail| ensures !less(tail[j], s[0]) {
          assert tail[j] in multiset(tail);
          if tail[j] != x {
            assert tail[j] in s[1..];
          }
        }
      } else {
        forall j | 0 <= j < |s| ensures !less(s[j], x) {
          assert s[j] in s && s[0] in s;
        }
      }
    }
  }

  lemma {:induction false} SortOrdered<T(!new)>(s: seq<T>, less: (T, T) -> bool)
    requires WeakOn(s, less)
    ensures Ordered(StableSort(s, less), less)
    decreases |s|
  {
    if s != [] {
      assert forall y :: y in s[1..] ==> y in s;
      SortOrdered(s[1..], less);
      var rest := StableSort(s[1..], less);
      SameElements(rest, s[1..]);
      assert forall y :: y in [s[0]] + rest ==> y in s;
      InsertOrdered(s[0], rest, less);
    }
  }

  function Only<T>(x: T, k: T, less: (T, T) -> bool): seq<T> { if Ties(x, k, less) then [x] else [] }

  lemma ClassCons<T>(x: T, s: seq<T>, less: (T, T) -> bool, k: T)
    ensures Class([x] + s, k, less) == Only(x, k, less) + Class(s, k, less)
  {
    assert ([x] + s)[1..] == s;
  }

  lemma {:induction false} InsertClass<T(!new)>(x: T, s: seq<T>, less: (T, T) -> bool, k: T)
    requires WeakOn([k, x] + s, less)
    ensures Class(Insert(x, s, less), k, less) == Class([x] + s, k, less)
    decreases |s|
  {
    if s != [] && less(s[0], x) {
      var h, rest := s[0], s[1..];
      assert s == [h] + rest;
      assert forall y :: y in [k, x] + rest ==> y in [k, x] + s;
      InsertClass(x, rest, less, k);
      assert h in [k, x] + s && x in [k, x] + s && k in [k, x] + s;
      // h < x, so they cannot both tie with k
      assert Only(h, k, less) == [] || Only(x, k, less) == [];
      ClassCons(h, Insert(x, rest, less), less, k);
      ClassCons(x, rest, less, k);
      ClassCons(x, s, less, k);
      ClassCons(h, rest, less, k);
      SwapSingle(Only(h, k, less), Only(x, k, less), Class(rest, k, less));
    }
  }

  lemma SwapSingle<T>(p: seq<T>, q: seq<T>, r: seq<T>)
    requires p == [] || q == []
    ensures p + (q + r) == q + (p + r)
  {
  }

  lemma {:induction false} SortClass<T(!new)>(s: seq<T>, less: (T, T) -> bool, k: T)
    requires WeakOn([k] + s, less)
    ensures Class(StableSort(s, less), k, less) == Class(s, k, less)
    decreases |s|
  {
    if s != [] {
      assert forall y :: y in [k] + s[1..] ==> y in [k] + s;
      SortClass(s[1..], less, k);
      var rest := StableSort(s[1..], less);
      SameElements(rest, s[1..]);
      assert forall y :: y in [k, s[0]] + rest ==> y in [k] + s;
      InsertClass(s[0], rest, less, k);
      assert ([s[0]] + rest)[1..] == rest;
    }
  }

  /** The sort keeps the elements, orders them and keeps ties in place. */
  lemma SortIsStable<T(!new)>(s: seq<T>, less: (T, T) -> bool)
    requires WeakOn(s, less)
    ensures Ordered(StableSort(s, less), less) && Stable(s, StableSort(s, less), less)
  {
    SortOrdered(s, less);
    forall x | x in s ensures Class(StableSort(s, less), x, less) == Class(s, x, less) {
      assert forall y :: y in [x] + s ==> y in s;
      SortClass(s, less, x);
    }
  }

  lemma {:induction false} ClassMembers<T>(s: seq<T>, x: T, less: (T, T) -> bool)
    ensures Class(s, x, less) != [] <==> exists y :: y in s && Ties(y, x, less)
    ensures Class(s, x, less) != [] ==> Class(s, x, less)[0] in s && Ties(Class(s, x, less)[0], x, less)
  {
    if s != [] {
      ClassMembers(s[1..], x, less);
      assert forall y :: y in s <==> y == s[0] || y in s[1..];
    }
  }

  lemma FirstIsInItsClass<T(!new)>(s: seq<T>, less: (T, T) -> bool)
    requires s != [] && WeakOn(s, less)
    ensures s[0] in s && Class(s, s[0], less) != []
  {
    assert Ties(s[0], s[0], less);
  }

  /** An ordered sequence is determined by its tie classes, so a stable sort has one outcome. */
  lemma {:induction false} StableSortIsUnique<T(!new)>(a: seq<T>, b: seq<T>, less: (T, T) -> bool)
    requires WeakOn(a + b, less) && Ordered(a, less) && Ordered(b, less)
    requires forall x :: x in a || x in b ==> Class(a, x, less) == Class(b, x, less)
    ensures a == b
    decreases |a|
  {
    if a == [] {
      assert a + b == b;
      if b != [] {
        FirstIsInItsClass(b, less);
      }
    } else {
      HeadsAgree(a, b, less);
      var x := a[0];
      forall k | k in a[1..] || k in b[1..] ensures Class(a[1..], k, less) == Class(b[1..], k, less) {
        assert k in a || k in b;
        assert Class(a, k, less) == Class(b, k, less);
        var n := |Only(x, k, less)|;
        assert Class(a[1..], k, less) == Class(a, k, less)[n..];
        assert Class(b[1..], k, less) == Class(b, k, less)[n..];
      }
      assert forall y :: y in a[1..] + b[1..] ==> y in a + b;
      StableSortIsUnique(a[1..], b[1..], less);
      assert a == [x] + a[1..] && b == [x] + b[1..];
    }
  }

  lemma HeadsAgree<T(!new)>(a: seq<T>, b: seq<T>, less: (T, T) -> bool)
    requires WeakOn(a + b, less) && Ordered(a, less) && Ordered(b, less) && a != []
    requires forall x :: x in a || x in b ==> Class(a, x, less) == Class(b, x, less)
    ensures b != [] && a[0] == b[0]
  {
    assert a[0] in a && a[0] in a + b;
    ClassMembers(a, a[0], less);
    ClassMembers(b, a[0], less);
    assert Class(a, a[0], less) == Class(b, a[0], less);
    var y :| y in b && Ties(y, a[0], less);
    assert b[0] in b && b[0] in a + b && y in a + b;
    ClassMembers(b, b[0], less);
    ClassMembers(a, b[0], less);
    assert Class(a, b[0], less) == Class(b, b[0], less);
    var z :| z in a && Ties(z, b[0], less);
    assert z in a + b;
    assert !less(y, b[0]) && !less(z, a[0]);
    assert Ties(a[0], b[0], less);
  }

  // ---- where each element lands ------------------------------------------------------

  /** How many elements come strictly before x. */
  function Smaller<T>(s: seq<T>, x: T, less: (T, T) -> bool): nat {
    if s == [] then 0 else (if less(s[0], x) then 1 else 0) + Smaller(s[1..], x, less)
  }

  /** The elements strictly before s[i], and the ties ahead of it. */
  function Rank<T>(s: seq<T>, i: nat, less: (T, T) -> bool): nat
    requires i < |s|
  {
    Smaller(s, s[i], less) + |Class(s[..i], s[i], less)|
  }

  /** How many leading elements Insert passes over. */
  function Lead<T>(x: T, s: seq<T>, less: (T, T) -> bool): (q: nat)
    ensures q <= |s| && forall p :: 0 <= p < q ==> less(s[p], x)
  {
    if s == [] || !less(s[0], x) then 0 else 1 + Lead(x, s[1..], less)
  }

  lemma {:induction false} InsertIs<T>(x: T, s: seq<T>, less: (T, T) -> bool)
    ensures var q := Lead(x, s, less); Insert(x, s, less) == s[..q] + [x] + s[q..]
  {
    if s != [] && less(s[0], x) {
      var rest := s[1..];
      InsertIs(x, rest, less);
      var q := Lead(x, rest, less);
      assert s[..q + 1] == [s[0]] + rest[..q] && s[q + 1..] == rest[q..];
      Assoc([s[0]], rest[..q] + [x], rest[q..]);
      Assoc([s[0]], rest[..q], [x]);
    } else {
      assert s[..0] == [] && s[0..] == s;
    }
  }

  lemma {:induction false} InsertSmaller<T>(x: T, s: seq<T>, y: T, less: (T, T) -> bool)
    ensures Smaller(Insert(x, s, less), y, less) == Smaller(s, y, less) + if less(x, y) then 1 else 0
  {
    if s == [] {
      assert [x][1..] == [];
    } else if less(s[0], x) {
      InsertSmaller(x, s[1..], y, less);
      Uncons([s[0]], Insert(x, s[1..], less));
    } else {
      Uncons([x], s);
    }
  }

  lemma {:induction false} SortSmaller<T>(s: seq<T>, y: T, less: (T, T) -> bool)
    ensures Smaller(StableSort(s, less), y, less) == Smaller(s, y, less)
  {
    if s != [] {
      SortSmaller(s[1..], y, less);
      InsertSmaller(s[0], StableSort(s[1..], less), y, less);
    }
  }

  lemma {:induction false} NoneSmaller<T>(s: seq<T>, x: T, less: (T, T) -> bool)
    requires forall y :: y in s ==> !less(y, x)
    ensures Smaller(s, x, less) == 0
  {
    if s != [] {
      assert s[0] in s && forall y :: y in s[1..] ==> y in s;
      NoneSmaller(s[1..], x, less);
    }
  }

  /** In an ordered sequence the elements before x are exactly the leading ones. */
  lemma {:induction false} LeadIsSmaller<T(!new)>(x: T, s: seq<T>, less: (T, T) -> bool)
    requires Ordered(s, less) && WeakOn([x] + s, less)
    ensures Lead(x, s, less) == Smaller(s, x, less)
    ensures forall p :: 0 <= p < |s| ==> (less(s[p], x) <==> p < Lead(x, s, less))
  {
    if s != [] {
      var all := [x] + s;
      assert x in all && s[0] in all && forall y :: y in s ==> y in all;
      if less(s[0], x) {
        assert forall y :: y in [x] + s[1..] ==> y in all;
        LeadIsSmaller(x, s[1..], less);
      } else {
        forall p | 0 <= p < |s| ensures !less(s[p], x) {
          assert s[p] in s && (p > 0 ==> !less(s[p], s[0]));
        }
        NoneSmaller(s, x, less);
      }
    }
  }

  lemma RankCons<T>(s: seq<T>, i: nat, less: (T, T) -> bool)
    requires 0 < i < |s|
    ensures Rank(s, i, less) == Rank(s[1..], i - 1, less) +
            (if less(s[0], s[i]) then 1 else 0) + (if Ties(s[0], s[i], less) then 1 else 0)
  {
    assert s[..i] == [s[0]] + s[1..][..i - 1] && s[1..][i - 1] == s[i];
    ClassCons(s[0], s[1..][..i - 1], less, s[i]);
  }

  lemma InsertedAt<T>(x: T, t: seq<T>, p: nat, less: (T, T) -> bool)
    requires p < |t|
    ensures var q, r := Lead(x, t, less), Insert(x, t, less);
      && |r| == |t| + 1 && r[q] == x && r[if p < q then p else p + 1] == t[p]
  {
    InsertIs(x, t, less);
  }

  /** The first element is inserted behind exactly the smaller ones. */
  lemma FirstInserted<T(!new)>(s: seq<T>, less: (T, T) -> bool)
    requires WeakOn(s, less) && s != []
    ensures var t := StableSort(s[1..], less);
      && |t| == |s| - 1 && Lead(s[0], t, less) == Smaller(s[1..], s[0], less)
      && forall p :: 0 <= p < |t| ==> (less(t[p], s[0]) <==> p < Lead(s[0], t, less))
  {
    var x, rest := s[0], s[1..];
    var t := StableSort(rest, less);
    assert x in s && forall y :: y in rest ==> y in s;
    SameElements(t, rest);
    SortOrdered(rest, less);
    assert forall y :: y in [x] + t ==> y in s;
    LeadIsSmaller(x, t, less);
    SortSmaller(rest, x, less);
  }

  lemma FirstAtRank<T(!new)>(s: seq<T>, less: (T, T) -> bool)
    requires WeakOn(s, less) && s != []
    ensures |StableSort(s, less)| == |s|
    ensures Rank(s, 0, less) < |s| && StableSort(s, less)[Rank(s, 0, less)] == s[0]
  {
    FirstInserted(s, less);
    assert s[0] in s && !less(s[0], s[0]) && s[..0] == [];
    InsertIs(s[0], StableSort(s[1..], less), less);
  }

  lemma BeforeOrTied<T(!new)>(s: seq<T>, i: nat, less: (T, T) -> bool)
    requires WeakOn(s, less) && i < |s|
    ensures (if less(s[0], s[i]) then 1 else 0) + (if Ties(s[0], s[i], less) then 1 else 0)
         == if less(s[i], s[0]) then 0 else 1
  {
    assert s[0] in s && s[i] in s;
  }

  /** Inserting the first element moves the others up by one, unless they come before it. */
  lemma OtherAtRank<T(!new)>(s: seq<T>, t: seq<T>, i: nat, p: nat, less: (T, T) -> bool)
    requires 0 < i < |s| && p == Rank(s[1..], i - 1, less)
    requires Rank(s, i, less) == p + if less(s[i], s[0]) then 0 else 1
    requires p < |t| && t[p] == s[i] && (less(t[p], s[0]) <==> p < Lead(s[0], t, less))
    ensures Rank(s, i, less) < |t| + 1 == |Insert(s[0], t, less)|
    ensures Insert(s[0], t, less)[Rank(s, i, less)] == s[i]
  {
    InsertedAt(s[0], t, p, less);
  }

  /** A stable sort puts each element behind the smaller ones and the ties ahead of it. */
  lemma {:induction false} SortedAtRank<T(!new)>(s: seq<T>, i: nat, less: (T, T) -> bool)
    requires WeakOn(s, less) && i < |s|
    ensures |StableSort(s, less)| == |s|
    ensures Rank(s, i, less) < |s| && StableSort(s, less)[Rank(s, i, less)] == s[i]
  {
    if i == 0 {
      FirstAtRank(s, less);
    } else {
      assert forall y :: y in s[1..] ==> y in s;
      SortedAtRank(s[1..], i - 1, less);
      FirstInserted(s, less);
      RankCons(s, i, less);
      BeforeOrTied(s, i, less);
      OtherAtRank(s, StableSort(s[1..], less), i, Rank(s[1..], i - 1, less), less);
    }
  }
}
