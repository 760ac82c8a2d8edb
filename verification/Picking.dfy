/** Keeping the elements of a sequence that pass a test: what filters and marks have in common. */
module Picking {
  import opened Text

  /** The elements that pass a test, in order. */
  function Pick<T>(xs: seq<T>, p: T -> bool): seq<T> {
    if xs == [] then [] else (if p(xs[0]) then [xs[0]] else []) + Pick(xs[1..], p)
  }

  lemma {:induction false} PickAppend<T>(a: seq<T>, b: seq<T>, p: T -> bool)
    ensures Pick(a + b, p) == Pick(a, p) + Pick(b, p)
  {
    if a == [] {
      assert a + b == b;
    } else {
      Uncons(a, b);
      PickAppend(a[1..], b, p);
      Assoc(if p(a[0]) then [a[0]] else [], Pick(a[1..], p), Pick(b, p));
    }
  }

  lemma PickSnoc<T>(xs: seq<T>, i: nat, p: T -> bool)
    requires i < |xs|
    ensures Pick(xs[..i + 1], p) == Pick(xs[..i], p) + (if p(xs[i]) then [xs[i]] else [])
  {
    assert xs[..i + 1] == xs[..i] + [xs[i]] && [xs[i]][1..] == [];
    PickAppend(xs[..i], [xs[i]], p);
  }

  lemma {:induction false} PickAll<T>(xs: seq<T>, p: T -> bool)
    requires forall k :: 0 <= k < |xs| ==> p(xs[k])
    ensures Pick(xs, p) == xs
  {
    if xs != [] {
      PickAll(xs[1..], p);
    }
  }

  lemma {:induction false} PickTwice<T>(xs: seq<T>, p: T -> bool, q: T -> bool, both: T -> bool)
    requires forall k :: 0 <= k < |xs| ==> (both(xs[k]) <==> p(xs[k]) && q(xs[k]))
    ensures Pick(xs, both) == Pick(Pick(xs, p), q)
  {
    if xs != [] {
      PickTwice(xs[1..], p, q, both);
      var first := if p(xs[0]) then [xs[0]] else [];
      PickAppend(first, Pick(xs[1..], p), q);
      assert first != [] ==> first[1..] == [];
    }
  }

  ghost predicate Increasing(idx: seq<nat>) {
    forall a, b :: 0 <= a < b < |idx| ==> idx[a] < idx[b]
  }

  /** idx lists, in increasing order, exactly the positions of the elements that pass,
      and out holds the elements at those positions. */
  ghost predicate Selection<T>(xs: seq<T>, p: T -> bool, idx: seq<nat>, out: seq<T>) {
    && Increasing(idx)
    && (forall k :: 0 <= k < |idx| ==> idx[k] < |xs| && p(xs[idx[k]]))
    && (forall i :: 0 <= i < |xs| && p(xs[i]) ==> i in idx)
    && |out| == |idx|
    && (forall k :: 0 <= k < |idx| ==> out[k] == xs[idx[k]])
  }

  /** One element more, kept or not. */
  lemma SelectionSkip<T>(xs: seq<T>, x: T, p: T -> bool, idx: seq<nat>, out: seq<T>)
    requires Selection(xs, p, idx, out) && !p(x)
    ensures Selection(xs + [x], p, idx, out)
  {
    var ys := xs + [x];
    assert forall i :: 0 <= i < |xs| ==> ys[i] == xs[i];
  }

  lemma SelectionTake<T>(xs: seq<T>, x: T, p: T -> bool, idx: seq<nat>, out: seq<T>)
    requires Selection(xs, p, idx, out) && p(x)
    ensures Selection(xs + [x], p, idx + [|xs|], out + [x])
  {
    var ys, jdx, more := xs + [x], idx + [|xs|], out + [x];
    assert forall i :: 0 <= i < |xs| ==> ys[i] == xs[i];
    assert forall k :: 0 <= k < |idx| ==> jdx[k] == idx[k] && more[k] == out[k];
    assert jdx[|idx|] == |xs| && more[|idx|] == x;
    forall i | 0 <= i < |ys| && p(ys[i]) ensures i in jdx {
      assert i < |xs| ==> i in idx;
    }
  }

  lemma {:induction false} PickIsSelection<T>(xs: seq<T>, p: T -> bool) returns (idx: seq<nat>)
    ensures Selection(xs, p, idx, Pick(xs, p))
  {
    if xs == [] {
      idx := [];
    } else {
      var n := |xs| - 1;
      idx := PickIsSelection(xs[..n], p);
      PickSnoc(xs, n, p);
      assert xs[..n + 1] == xs && xs[..n] + [xs[n]] == xs;
      if p(xs[n]) {
        SelectionTake(xs[..n], xs[n], p, idx, Pick(xs[..n], p));
        idx := idx + [n];
      } else {
        SelectionSkip(xs[..n], xs[n], p, idx, Pick(xs[..n], p));
      }
    }
  }
}
