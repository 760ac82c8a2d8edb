/** The column width solver (resolveWidths in internal/component/table.go). */
module Widths {
  import opened Rows

  const MARKER := 2
  const MIN_COL := 3

  function Min(a: int, b: int): int { if a < b then a else b }

  function Sum(s: seq<int>): int {
    if s == [] then 0 else Sum(s[..|s| - 1]) + s[|s| - 1]
  }

  lemma {:induction false} SumSnoc(s: seq<int>, x: int)
    ensures Sum(s + [x]) == Sum(s) + x
  {
    assert (s + [x])[..|s|] == s;
  }

  lemma {:induction false} SumUpdate(s: seq<int>, i: nat, x: int)
    requires i < |s|
    ensures Sum(s[i := x]) == Sum(s) - s[i] + x
  {
    var n := |s| - 1;
    if i < n {
      SumUpdate(s[..n], i, x);
      assert s[i := x][..n] == s[..n][i := x];
    } else {
      assert s[i := x][..n] == s[..n];
    }
  }

  lemma {:induction false} SumBound(s: seq<int>, x: int)
    requires forall i :: 0 <= i < |s| ==> s[i] <= x
    ensures Sum(s) <= x * |s|
  {
    if s != [] {
      SumBound(s[..|s| - 1], x);
      assert x * |s| == x * (|s| - 1) + x;
    }
  }

  // ---- the solver, as a function of columns, width and padding --------------------

  function Available(n: nat, width: int, pad: int): int {
    var avail := width - MARKER - pad * (n - 1);
    if avail < n * MIN_COL then n * MIN_COL else avail
  }

  function Mins(cols: seq<Column>): (r: seq<int>)
    ensures |r| == |cols| && forall i :: 0 <= i < |r| ==> r[i] == cols[i].minWidth
  {
    seq(|cols|, i requires 0 <= i < |cols| => cols[i].minWidth)
  }

  function Grows(cols: seq<Column>): (r: seq<int>)
    ensures |r| == |cols| && forall i :: 0 <= i < |r| ==> r[i] == cols[i].grow
  {
    seq(|cols|, i requires 0 <= i < |cols| => cols[i].grow)
  }

  /** A column's whole-cell share of the surplus. */
  function Share(c: Column, surplus: int, totalGrow: int): int
    requires totalGrow != 0
  {
    if c.grow > 0 then surplus * c.grow / totalGrow else 0
  }

  function Shares(cols: seq<Column>, surplus: int, totalGrow: int): (r: seq<int>)
    requires totalGrow != 0
    ensures |r| == |cols| && forall i :: 0 <= i < |r| ==> r[i] == Share(cols[i], surplus, totalGrow)
  {
    seq(|cols|, i requires 0 <= i < |cols| => Share(cols[i], surplus, totalGrow))
  }

  function Plus(a: seq<int>, b: seq<int>): (r: seq<int>)
    requires |a| == |b|
    ensures |r| == |a| && forall i :: 0 <= i < |r| ==> r[i] == a[i] + b[i]
  {
    seq(|a|, i requires 0 <= i < |a| => a[i] + b[i])
  }

  /** The first flexible column, or |cols|. */
  function FirstFlexible(cols: seq<Column>): (i: nat)
    ensures i <= |cols| && (i < |cols| ==> cols[i].grow > 0)
    ensures forall k :: 0 <= k < i ==> cols[k].grow <= 0
  {
    if cols == [] || cols[0].grow > 0 then 0
    else
      var i := 1 + FirstFlexible(cols[1..]);
      assert forall k :: 0 < k < i ==> cols[k] == cols[1..][k - 1];
      i
  }

  function AddAt(w: seq<int>, i: nat, x: int): seq<int> {
    if i < |w| then w[i := w[i] + x] else w
  }

  function Widened(cols: seq<Column>, surplus: int, totalGrow: int): seq<int>
    requires totalGrow != 0
  {
    var shares := Shares(cols, surplus, totalGrow);
    AddAt(Plus(Mins(cols), shares), FirstFlexible(cols), surplus - Sum(shares))
  }

  /** The flexible columns among the first i, shrunk in order towards the minimum column width. */
  function Shrunk(cols: seq<Column>, deficit: int, i: nat): (r: (seq<int>, int))
    requires i <= |cols|
    ensures |r.0| == i
  {
    if i == 0 then ([], deficit)
    else
      var (w, left) := Shrunk(cols, deficit, i - 1);
      var c := cols[i - 1];
      var take := Min(c.minWidth - MIN_COL, left);
      if left > 0 && c.grow > 0 && take > 0 then (w + [c.minWidth - take], left - take) else (w + [c.minWidth], left)
  }

  /** The first of the widest columns among the first i. */
  function Widest(w: seq<int>, i: nat): (m: nat)
    requires 0 < i <= |w|
    ensures m < i && (forall k :: 0 <= k < i ==> w[k] <= w[m]) && (forall k :: 0 <= k < m ==> w[k] < w[m])
  {
    if i == 1 then 0
    else
      var m := Widest(w, i - 1);
      if w[i - 1] > w[m] then i - 1 else m
  }

  /** Takes the deficit from the widest column, one cell at a time. */
  function Shaved(w: seq<int>, deficit: int): (r: seq<int>)
    requires w != []
    ensures |r| == |w|
    decreases if deficit > 0 then deficit else 0
  {
    if deficit <= 0 then w
    else
      var m := Widest(w, |w|);
      if w[m] <= MIN_COL then w else Shaved(w[m := w[m] - 1], deficit - 1)
  }

  function Narrowed(cols: seq<Column>, amount: int): (r: seq<int>)
    requires cols != []
    ensures |r| == |cols|
  {
    var (w, deficit) := Shrunk(cols, amount, |cols|);
    Shaved(w, deficit)
  }

  function Solve(cols: seq<Column>, width: int, pad: int): (r: seq<int>)
    ensures |r| == |cols|
  {
    if cols == [] then []
    else
      var surplus := Available(|cols|, width, pad) - Sum(Mins(cols));
      var totalGrow := Sum(Grows(cols));
      if surplus > 0 && totalGrow > 0 then Widened(cols, surplus, totalGrow)
      else if surplus < 0 then Narrowed(cols, -surplus)
      else Mins(cols)
  }

  // ---- the loops -----------------------------------------------------------------

  method ResolveWidths(cols: seq<Column>, width: int, pad: int) returns (widths: seq<int>)
    ensures widths == Solve(cols, width, pad)
  {
    var n := |cols|;
    if n == 0 {
      return [];
    }
    var avail := Available(n, width, pad);
    var w := new int[n];
    var totalMin, totalGrow := Measure(cols, w);
    var surplus := avail - totalMin;
    if surplus > 0 && totalGrow > 0 {
      Widen(cols, w, surplus, totalGrow);
    } else if surplus < 0 {
      Narrow(cols, w, -surplus);
    }
    widths := w[..];
  }

  method Narrow(cols: seq<Column>, w: array<int>, amount: int)
    requires cols != [] && w.Length == |cols| && w[..] == Mins(cols)
    modifies w
    ensures w[..] == Narrowed(cols, amount)
  {
    var deficit := Shrink(cols, w, amount);
    Shave(w, deficit);
  }

  method Measure(cols: seq<Column>, w: array<int>) returns (totalMin: int, totalGrow: int)
    requires w.Length == |cols|
    modifies w
    ensures w[..] == Mins(cols) && totalMin == Sum(Mins(cols)) && totalGrow == Sum(Grows(cols))
  {
    totalMin, totalGrow := 0, 0;
    ghost var mins, grows := Mins(cols), Grows(cols);
    for i := 0 to w.Length
      invariant w[..i] == mins[..i]
      invariant totalMin == Sum(mins[..i]) && totalGrow == Sum(grows[..i])
    {
      w[i] := cols[i].minWidth;
      totalMin := totalMin + cols[i].minWidth;
      totalGrow := totalGrow + cols[i].grow;
      SumSnoc(mins[..i], mins[i]);
      SumSnoc(grows[..i], grows[i]);
      assert mins[..i + 1] == mins[..i] + [mins[i]];
      assert grows[..i + 1] == grows[..i] + [grows[i]];
    }
    assert mins[..w.Length] == mins && grows[..w.Length] == grows && w[..] == w[..w.Length];
  }

  method Widen(cols: seq<Column>, w: array<int>, surplus: int, totalGrow: int)
    requires w.Length == |cols| && w[..] == Mins(cols) && totalGrow > 0
    modifies w
    ensures w[..] == Widened(cols, surplus, totalGrow)
  {
    var given := GiveShares(cols, w, surplus, totalGrow);
    GiveRest(cols, w, surplus - given);
  }

  method GiveShares(cols: seq<Column>, w: array<int>, surplus: int, totalGrow: int) returns (given: int)
    requires w.Length == |cols| && w[..] == Mins(cols) && totalGrow > 0
    modifies w
    ensures w[..] == Plus(Mins(cols), Shares(cols, surplus, totalGrow))
    ensures given == Sum(Shares(cols, surplus, totalGrow))
  {
    given := 0;
    ghost var shares := Shares(cols, surplus, totalGrow);
    for i := 0 to w.Length
      invariant given == Sum(shares[..i])
      invariant forall k :: 0 <= k < w.Length ==> w[k] == cols[k].minWidth + if k < i then shares[k] else 0
    {
      var add := 0;
      if cols[i].grow > 0 {
        add := surplus * cols[i].grow / totalGrow;
      }
      assert add == shares[i];
      w[i] := w[i] + add;
      given := given + add;
      SumSnoc(shares[..i], shares[i]);
      assert shares[..i + 1] == shares[..i] + [shares[i]];
    }
    assert shares[..w.Length] == shares;
  }

  /** The remainder goes to the first flexible column. */
  method GiveRest(cols: seq<Column>, w: array<int>, rest: int)
    requires w.Length == |cols|
    modifies w
    ensures w[..] == AddAt(old(w[..]), FirstFlexible(cols), rest)
  {
    var i := 0;
    while i < w.Length && cols[i].grow <= 0
      invariant 0 <= i <= w.Length && i <= FirstFlexible(cols)
      invariant w[..] == old(w[..])
    {
      i := i + 1;
    }
    if i < w.Length {
      w[i] := w[i] + rest;
    }
  }

  method Shrink(cols: seq<Column>, w: array<int>, amount: int) returns (deficit: int)
    requires w.Length == |cols| && w[..] == Mins(cols)
    modifies w
    ensures (w[..], deficit) == Shrunk(cols, amount, |cols|)
  {
    deficit := amount;
    for i := 0 to w.Length
      invariant (w[..i], deficit) == Shrunk(cols, amount, i)
      invariant forall k :: i <= k < w.Length ==> w[k] == cols[k].minWidth
    {
      assert w[i] == cols[i].minWidth;
      if deficit > 0 && cols[i].grow > 0 {
        var take := Min(w[i] - MIN_COL, deficit);
        if take > 0 {
          w[i] := w[i] - take;
          deficit := deficit - take;
        }
      }
      assert w[..i + 1] == w[..i] + [w[i]];
    }
    assert w[..] == w[..w.Length];
  }

  method Shave(w: array<int>, amount: int)
    requires w.Length > 0
    modifies w
    ensures w[..] == Shaved(old(w[..]), amount)
  {
    var deficit := amount;
    while deficit > 0
      invariant Shaved(w[..], deficit) == Shaved(old(w[..]), amount)
      decreases deficit
    {
      var mi := WidestColumn(w);
      if w[mi] <= MIN_COL {
        break;
      }
      ghost var before := w[..];
      w[mi] := w[mi] - 1;
      assert w[..] == before[mi := before[mi] - 1];
      deficit := deficit - 1;
    }
  }

  method WidestColumn(w: array<int>) returns (mi: nat)
    requires w.Length > 0
    ensures mi < w.Length && mi == Widest(w[..], w.Length)
  {
    mi := 0;
    for i := 1 to w.Length
      invariant mi < i && mi == Widest(w[..], i)
    {
      if w[i] > w[mi] {
        mi := i;
      }
    }
  }

  // ---- exactness -------------------------------------------------------------------

  ghost predicate Proper(cols: seq<Column>) {
    forall i :: 0 <= i < |cols| ==> cols[i].minWidth >= 0 && cols[i].grow >= 0
  }

  lemma {:induction false} SumPlus(a: seq<int>, b: seq<int>)
    requires |a| == |b|
    ensures Sum(Plus(a, b)) == Sum(a) + Sum(b)
  {
    if a != [] {
      var n := |a| - 1;
      SumPlus(a[..n], b[..n]);
      assert Plus(a, b)[..n] == Plus(a[..n], b[..n]);
    }
  }

  lemma {:induction false} SumPositive(s: seq<int>)
    requires Sum(s) > 0
    ensures exists i :: 0 <= i < |s| && s[i] > 0
  {
    if s[|s| - 1] <= 0 {
      SumPositive(s[..|s| - 1]);
      var i :| 0 <= i < |s| - 1 && s[..|s| - 1][i] > 0;
      assert s[i] > 0;
    }
  }

  lemma {:induction false} WidenedIsExact(cols: seq<Column>, surplus: int, totalGrow: int)
    requires FirstFlexible(cols) < |cols| && totalGrow != 0
    ensures Sum(Widened(cols, surplus, totalGrow)) == Sum(Mins(cols)) + surplus
  {
    WidenedSum(Mins(cols), Shares(cols, surplus, totalGrow), FirstFlexible(cols), surplus);
  }

  lemma {:induction false} WidenedSum(mins: seq<int>, shares: seq<int>, first: nat, surplus: int)
    requires |mins| == |shares| && first < |mins|
    ensures Sum(AddAt(Plus(mins, shares), first, surplus - Sum(shares))) == Sum(mins) + surplus
  {
    SumPlus(mins, shares);
    AddAtSum(Plus(mins, shares), first, surplus - Sum(shares));
  }

  lemma SomeFlexible(cols: seq<Column>)
    requires Sum(Grows(cols)) > 0
    ensures FirstFlexible(cols) < |cols|
  {
    SumPositive(Grows(cols));
  }

  lemma {:induction false} AddAtSum(w: seq<int>, i: nat, x: int)
    requires i < |w|
    ensures Sum(AddAt(w, i, x)) == Sum(w) + x
  {
    SumUpdate(w, i, w[i] + x);
  }

  lemma {:induction false} ShrunkSum(cols: seq<Column>, deficit: int, i: nat)
    requires i <= |cols|
    ensures var (w, left) := Shrunk(cols, deficit, i); Sum(w) - left == Sum(Mins(cols)[..i]) - deficit
  {
    if i > 0 {
      ShrunkSum(cols, deficit, i - 1);
      var (w, left) := Shrunk(cols, deficit, i);
      var prev := Shrunk(cols, deficit, i - 1).0;
      SumSnoc(prev, w[i - 1]);
      assert w == prev + [w[i - 1]];
      SumSnoc(Mins(cols)[..i - 1], cols[i - 1].minWidth);
      assert Mins(cols)[..i] == Mins(cols)[..i - 1] + [cols[i - 1].minWidth];
    }
  }

  /** While the columns hold more than the room they must fit, the widest is above the minimum:
      the shave loop's early break is never taken. */
  lemma {:induction false} BreakIsNeverNeeded(w: seq<int>, deficit: int)
    requires w != [] && deficit > 0 && Sum(w) - deficit >= MIN_COL * |w|
    ensures w[Widest(w, |w|)] > MIN_COL
  {
    var m := Widest(w, |w|);
    if w[m] <= MIN_COL {
      SumBound(w, MIN_COL);
    }
  }

  lemma {:induction false} ShavedIsExact(w: seq<int>, deficit: int)
    requires w != [] && deficit >= 0 && Sum(w) - deficit >= MIN_COL * |w|
    ensures Sum(Shaved(w, deficit)) == Sum(w) - deficit
    decreases deficit
  {
    if deficit > 0 {
      BreakIsNeverNeeded(w, deficit);
      var m := Widest(w, |w|);
      SumUpdate(w, m, w[m] - 1);
      ShavedIsExact(w[m := w[m] - 1], deficit - 1);
    }
  }

  lemma {:induction false} ShrunkLeft(cols: seq<Column>, deficit: int, i: nat)
    requires i <= |cols| && deficit >= 0
    ensures 0 <= Shrunk(cols, deficit, i).1 <= deficit
  {
    if i > 0 {
      ShrunkLeft(cols, deficit, i - 1);
    }
  }

  /** The widths fill the available room exactly, unless there is room to spare and no flexible
      column, when every column stays at its minimum. */
  lemma {:induction false} WidthsAreExact(cols: seq<Column>, width: int, pad: int)
    requires cols != [] && Proper(cols)
    ensures var avail := Available(|cols|, width, pad);
            if avail > Sum(Mins(cols)) && Sum(Grows(cols)) == 0 then Solve(cols, width, pad) == Mins(cols)
            else Sum(Solve(cols, width, pad)) == avail
  {
    var avail := Available(|cols|, width, pad);
    var surplus, totalGrow := avail - Sum(Mins(cols)), Sum(Grows(cols));
    TotalGrowNonNegative(cols);
    if surplus > 0 && totalGrow > 0 {
      SomeFlexible(cols);
      WidenedIsExact(cols, surplus, totalGrow);
    } else if surplus < 0 {
      NarrowedIsExact(cols, -surplus);
    }
  }

  lemma {:induction false} NarrowedIsExact(cols: seq<Column>, amount: int)
    requires cols != [] && amount >= 0 && Sum(Mins(cols)) - amount >= MIN_COL * |cols|
    ensures Sum(Narrowed(cols, amount)) == Sum(Mins(cols)) - amount
  {
    ShrunkSum(cols, amount, |cols|);
    ShrunkLeft(cols, amount, |cols|);
    assert Mins(cols)[..|cols|] == Mins(cols);
    var (w, deficit) := Shrunk(cols, amount, |cols|);
    ShavedIsExact(w, deficit);
  }

  lemma TotalGrowNonNegative(cols: seq<Column>)
    requires Proper(cols)
    ensures Sum(Grows(cols)) >= 0
  {
    GrowsNonNegative(cols, |cols|);
    assert Grows(cols)[..|cols|] == Grows(cols);
  }

  lemma {:induction false} GrowsNonNegative(cols: seq<Column>, i: nat)
    requires Proper(cols) && i <= |cols|
    ensures Sum(Grows(cols)[..i]) >= 0
  {
    if i > 0 {
      GrowsNonNegative(cols, i - 1);
      SumSnoc(Grows(cols)[..i - 1], cols[i - 1].grow);
      assert Grows(cols)[..i] == Grows(cols)[..i - 1] + [cols[i - 1].grow];
    }
  }

  // ---- the surplus is shared in proportion ------------------------------------------

  function Flexible(cols: seq<Column>): nat {
    if cols == [] then 0 else Flexible(cols[..|cols| - 1]) + if cols[|cols| - 1].grow > 0 then 1 else 0
  }

  lemma ShareIsFloor(c: Column, surplus: int, totalGrow: int)
    requires surplus >= 0 && totalGrow > 0 && c.grow >= 0
    ensures 0 <= Share(c, surplus, totalGrow)
    ensures Share(c, surplus, totalGrow) * totalGrow <= surplus * c.grow
    ensures c.grow > 0 ==> surplus * c.grow < (Share(c, surplus, totalGrow) + 1) * totalGrow
  {
    var x := surplus * c.grow;
    assert x >= 0;
    assert x == x / totalGrow * totalGrow + x % totalGrow;
    assert (x / totalGrow + 1) * totalGrow == x / totalGrow * totalGrow + totalGrow;
  }

  lemma {:induction false} SharesBound(cols: seq<Column>, surplus: int, totalGrow: int)
    requires Proper(cols) && surplus >= 0 && totalGrow > 0
    ensures var given, due := Sum(Shares(cols, surplus, totalGrow)) * totalGrow, surplus * Sum(Grows(cols));
            given <= due <= given + Flexible(cols) * totalGrow
  {
    if cols != [] {
      var n := |cols| - 1;
      var c, init := cols[n], cols[..n];
      SharesBound(init, surplus, totalGrow);
      ShareIsFloor(c, surplus, totalGrow);
      var share := Share(c, surplus, totalGrow);
      assert Shares(cols, surplus, totalGrow)[..n] == Shares(init, surplus, totalGrow);
      assert Grows(cols)[..n] == Grows(init);
      Distribute(Sum(Shares(init, surplus, totalGrow)), share, totalGrow);
      Distribute(Sum(Grows(init)), c.grow, surplus);
      Distribute(share, 1, totalGrow);
      Distribute(Flexible(init), if c.grow > 0 then 1 else 0, totalGrow);
    }
  }

  lemma Distribute(a: int, b: int, k: int)
    ensures (a + b) * k == a * k + b * k && k * (a + b) == k * a + k * b
  {
  }

  /** The whole shares never exceed the surplus, and what rounding leaves for the first flexible
      column is at most one cell per flexible column. */
  lemma RemainderIsSmall(cols: seq<Column>, surplus: int, totalGrow: int)
    requires Proper(cols) && surplus >= 0 && totalGrow == Sum(Grows(cols)) && totalGrow > 0
    ensures 0 <= surplus - Sum(Shares(cols, surplus, totalGrow)) <= Flexible(cols)
  {
    SharesBound(cols, surplus, totalGrow);
    var given := Sum(Shares(cols, surplus, totalGrow));
    CancelFactor(given, surplus, totalGrow);
    Distribute(given, Flexible(cols), totalGrow);
    CancelFactor(surplus, given + Flexible(cols), totalGrow);
  }

  lemma CancelFactor(a: int, b: int, k: int)
    requires k > 0 && a * k <= b * k
    ensures a <= b
  {
    if a > b {
      OneMore(a, b, k);
    }
  }

  lemma OneMore(a: int, b: int, k: int)
    requires a > b && k > 0
    ensures a * k >= b * k + k
  {
    Distribute(b, 1, k);
    assert (a - b - 1) * k >= 0;
  }

  // ---- no column is squeezed below its floor, and the last phase is even ------------------

  lemma {:induction false} ShrunkFloor(cols: seq<Column>, deficit: int, i: nat, k: nat)
    requires k < i <= |cols|
    ensures Min(cols[k].minWidth, MIN_COL) <= Shrunk(cols, deficit, i).0[k] <= cols[k].minWidth
  {
    if k < i - 1 {
      ShrunkFloor(cols, deficit, i - 1, k);
    }
  }

  ghost predicate AllWithin(r: seq<int>, bound: int) { forall j :: 0 <= j < |r| ==> r[j] <= bound }

  /** A lowered column is within one of the widest and not below its floor. */
  ghost predicate EvenAt(was: int, r: seq<int>, i: nat)
    requires i < |r|
  {
    Min(was, MIN_COL) <= r[i] <= was && (r[i] < was ==> AllWithin(r, r[i] + 1))
  }

  /** Every column shaved in the last phase ends within one of the widest; a column it does not
      touch keeps its width. */
  lemma {:induction false} ShavedIsEven(w: seq<int>, deficit: int)
    requires w != []
    ensures forall i :: 0 <= i < |w| ==> EvenAt(w[i], Shaved(w, deficit), i)
    decreases if deficit > 0 then deficit else 0
  {
    if deficit > 0 {
      var m := Widest(w, |w|);
      if w[m] > MIN_COL {
        var next := w[m := w[m] - 1];
        ShavedIsEven(next, deficit - 1);
        ShaveOnce(w, m, next, Shaved(next, deficit - 1));
      }
    }
  }

  lemma ShaveOnce(w: seq<int>, m: nat, next: seq<int>, r: seq<int>)
    requires m < |w| == |r| && w[m] > MIN_COL && AllWithin(w, w[m]) && next == w[m := w[m] - 1]
    requires forall i :: 0 <= i < |w| ==> EvenAt(next[i], r, i)
    ensures forall i :: 0 <= i < |w| ==> EvenAt(w[i], r, i)
  {
    forall i | 0 <= i < |w| ensures EvenAt(w[i], r, i) {
      assert EvenAt(next[i], r, i);
      if i == m && r[m] == next[m] {
        forall j | 0 <= j < |r| ensures r[j] <= r[m] + 1 {
          assert EvenAt(next[j], r, j);
        }
      }
    }
  }

  lemma {:induction false} WidenedKeepsMins(cols: seq<Column>, surplus: int, totalGrow: int, i: nat)
    requires Proper(cols) && i < |cols| && surplus > 0 && totalGrow == Sum(Grows(cols)) && totalGrow > 0
    ensures Widened(cols, surplus, totalGrow)[i] >= cols[i].minWidth
  {
    RemainderIsSmall(cols, surplus, totalGrow);
    ShareIsFloor(cols[i], surplus, totalGrow);
  }

  /** No width falls below the smaller of the column's minimum and the minimum column width. */
  lemma {:induction false} WidthsKeepFloor(cols: seq<Column>, width: int, pad: int, i: nat)
    requires Proper(cols) && i < |cols|
    ensures Solve(cols, width, pad)[i] >= Min(cols[i].minWidth, MIN_COL)
  {
    var surplus := Available(|cols|, width, pad) - Sum(Mins(cols));
    var totalGrow := Sum(Grows(cols));
    if surplus > 0 && totalGrow > 0 {
      WidenedKeepsMins(cols, surplus, totalGrow, i);
    } else if surplus < 0 {
      var (w, deficit) := Shrunk(cols, -surplus, |cols|);
      ShrunkFloor(cols, -surplus, |cols|, i);
      ShavedIsEven(w, deficit);
    }
  }

  // ---- how the surplus and the deficit are spread --------------------------------------

  /** The room for n columns: the width without the marker and the padding between them, but at
      least three cells each. */
  lemma RoomIs(n: nat, width: int, pad: int)
    ensures Available(n, width, pad) ==
            if width - 2 - pad * (n - 1) < 3 * n then 3 * n else width - 2 - pad * (n - 1)
  {
  }

  lemma SolveWidens(cols: seq<Column>, width: int, pad: int, surplus: int)
    requires cols != [] && surplus == Available(|cols|, width, pad) - Sum(Mins(cols)) > 0 && Sum(Grows(cols)) > 0
    ensures Solve(cols, width, pad) == Widened(cols, surplus, Sum(Grows(cols)))
  {
  }

  /** What column i has of the surplus: its whole share in proportion to its weight, and for the
      first flexible column also what rounding leaves. */
  ghost predicate HasItsShare(cols: seq<Column>, w: int, surplus: int, total: int, i: nat)
    requires i < |cols| && total != 0
  {
    var due := cols[i].minWidth + if cols[i].grow > 0 then surplus * cols[i].grow / total else 0;
    if cols[i].grow > 0 && (forall k :: 0 <= k < i ==> cols[k].grow == 0)
    then due <= w <= due + Flexible(cols) else w == due
  }

  /** With room to spare - the width without the marker and the padding, or three cells a column -
      every column gets its minimum and its share of the surplus. */
  lemma SurplusIsShared(cols: seq<Column>, width: int, pad: int, room: int, i: nat)
    requires Proper(cols) && i < |cols| && Sum(Grows(cols)) > 0 && room > Sum(Mins(cols))
    requires room == if width - 2 - pad * (|cols| - 1) < 3 * |cols| then 3 * |cols| else width - 2 - pad * (|cols| - 1)
    ensures HasItsShare(cols, Solve(cols, width, pad)[i], room - Sum(Mins(cols)), Sum(Grows(cols)), i)
  {
    var surplus := room - Sum(Mins(cols));
    RoomIs(|cols|, width, pad);
    SolveWidens(cols, width, pad, surplus);
    WidenedHasShares(cols, surplus, Sum(Grows(cols)), i);
  }

  lemma WidenedHasShares(cols: seq<Column>, surplus: int, total: int, i: nat)
    requires Proper(cols) && i < |cols| && total == Sum(Grows(cols)) > 0 && surplus > 0
    ensures HasItsShare(cols, Widened(cols, surplus, total)[i], surplus, total, i)
  {
    RemainderIsSmall(cols, surplus, total);
    WidenedAt(cols, surplus, total, i);
  }

  lemma WidenedAt(cols: seq<Column>, surplus: int, total: int, i: nat)
    requires i < |cols| && total != 0
    ensures Widened(cols, surplus, total)[i] == cols[i].minWidth + Share(cols[i], surplus, total) +
            if i == FirstFlexible(cols) then surplus - Sum(Shares(cols, surplus, total)) else 0
  {
  }

  /** As long as some of the deficit is left, the flexible columns so far are at three cells or less. */
  lemma {:induction false} LeftMeansSmall(cols: seq<Column>, deficit: int, i: nat, j: nat)
    requires j < i <= |cols| && cols[j].grow > 0 && Shrunk(cols, deficit, i).1 > 0
    ensures Shrunk(cols, deficit, i).0[j] <= 3
  {
    if j < i - 1 {
      LeftMeansSmall(cols, deficit, i - 1, j);
    }
  }

  lemma {:induction false} ShrunkNeedsEarlier(cols: seq<Column>, deficit: int, n: nat, i: nat, j: nat)
    requires j < i < n <= |cols| && cols[j].grow > 0 && Shrunk(cols, deficit, n).0[i] < cols[i].minWidth
    ensures Shrunk(cols, deficit, n).0[j] <= 3
  {
    if i < n - 1 {
      ShrunkNeedsEarlier(cols, deficit, n - 1, i, j);
    } else {
      LeftMeansSmall(cols, deficit, i, j);
    }
  }

  lemma {:induction false} FixedKeepsMin(cols: seq<Column>, deficit: int, n: nat, i: nat)
    requires i < n <= |cols| && cols[i].grow <= 0
    ensures Shrunk(cols, deficit, n).0[i] == cols[i].minWidth
  {
    if i < n - 1 {
      FixedKeepsMin(cols, deficit, n - 1, i);
    }
  }

  /** Flexible columns give way first, and in order: a column is narrowed below its minimum only
      when every flexible column, or for a flexible one every earlier flexible column, is at
      three cells or less. */
  lemma FlexibleGiveWayFirst(cols: seq<Column>, width: int, pad: int, i: nat, j: nat)
    requires Proper(cols) && i < |cols| && j < |cols| && i != j && cols[j].grow > 0
    requires cols[i].grow == 0 || j < i
    requires Solve(cols, width, pad)[i] < cols[i].minWidth
    ensures Solve(cols, width, pad)[j] <= 3
  {
    var surplus, total := Available(|cols|, width, pad) - Sum(Mins(cols)), Sum(Grows(cols));
    if surplus > 0 && total > 0 {
      WidenedKeepsMins(cols, surplus, total, i);
    }
    var (w, left) := Shrunk(cols, -surplus, |cols|);
    ShavedIsEven(w, left);
    assert EvenAt(w[i], Shaved(w, left), i) && EvenAt(w[j], Shaved(w, left), j);
    if left > 0 {
      LeftMeansSmall(cols, -surplus, |cols|, j);
    } else if cols[i].grow == 0 {
      FixedKeepsMin(cols, -surplus, |cols|, i);
    } else {
      ShrunkNeedsEarlier(cols, -surplus, |cols|, i, j);
    }
  }
}
