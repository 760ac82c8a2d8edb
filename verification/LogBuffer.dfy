/** The bounded drop-oldest buffer between log readers and the flusher
    (internal/action/logstream/buffer.go). */
module LogBuffer {
  const DEFAULT_CAP := 10000

  /** Lines held together with the number of lines dropped before them. */
  datatype Batch = Batch(lines: seq<string>, dropped: nat)

  const EMPTY := Batch([], 0)

  function Size(b: Batch): nat { |b.lines| + b.dropped }

  /** One more line, the oldest evicted and counted when the capacity is exceeded. */
  function Extended(b: Batch, cap: nat, line: string): Batch {
    var all := b.lines + [line];
    if |all| > cap then Batch(all[|all| - cap..], b.dropped + |all| - cap) else Batch(all, b.dropped)
  }

  class Buffer {
    var pending: seq<string>
    var dropped: nat
    const cap: nat

    constructor (capacity: int)
      ensures cap == if capacity <= 0 then DEFAULT_CAP else capacity
      ensures Held() == EMPTY
    {
      cap := if capacity <= 0 then DEFAULT_CAP else capacity;
      pending, dropped := [], 0;
    }

    ghost function Held(): Batch
      reads this
    {
      Batch(pending, dropped)
    }

    method Append(line: string)
      modifies this
      ensures Held() == Extended(old(Held()), cap, line)
    {
      pending := pending + [line];
      if |pending| > cap {
        var over := |pending| - cap;
        pending := pending[over..];
        dropped := dropped + over;
      }
    }

    method Drain() returns (lines: seq<string>, lost: nat)
      modifies this
      ensures Batch(lines, lost) == old(Held())
      ensures Held() == EMPTY
    {
      if |pending| == 0 && dropped == 0 {
        return [], 0;
      }
      lines, lost := pending, dropped;
      pending, dropped := [], 0;
    }
  }

  /** The lines kept are the last min(n, cap) of the n lines the batch accounts for. */
  ghost predicate Tight(b: Batch, cap: nat) {
    |b.lines| == if Size(b) <= cap then Size(b) else cap
  }

  lemma ExtendedIsTight(b: Batch, cap: nat, line: string)
    requires Tight(b, cap)
    ensures Tight(Extended(b, cap, line), cap) && Size(Extended(b, cap, line)) == Size(b) + 1
  {
  }

  // ---- batches against the history of appended lines --------------------------

  /** The batches, in order, account for every appended line: each one drops the oldest
      lines of its stretch of the history and holds exactly the rest of that stretch. */
  ghost predicate Covers(batches: seq<Batch>, history: seq<string>)
    decreases |batches|
  {
    if batches == [] then history == []
    else
      var b := batches[|batches| - 1];
      && Size(b) <= |history|
      && b.lines == history[|history| - |b.lines|..]
      && Covers(batches[..|batches| - 1], history[..|history| - Size(b)])
  }

  lemma CoversAppend(drained: seq<Batch>, b: Batch, cap: nat, history: seq<string>, line: string)
    requires Covers(drained + [b], history)
    ensures Covers(drained + [Extended(b, cap, line)], history + [line])
  {
    var e := Extended(b, cap, line);
    assert (drained + [b])[..|drained|] == drained == (drained + [e])[..|drained|];
    assert (history + [line])[..|history| + 1 - Size(e)] == history[..|history| - Size(b)];
  }

  lemma CoversDrain(batches: seq<Batch>, history: seq<string>)
    requires Covers(batches, history)
    ensures Covers(batches + [EMPTY], history)
  {
    assert (batches + [EMPTY])[..|batches|] == batches;
    assert history[..|history|] == history;
  }

  /** Where batch k starts: after everything before it and after the lines it dropped. */
  ghost function StartOf(batches: seq<Batch>, k: nat): nat
    requires k < |batches|
  {
    (if k == 0 then 0 else StartOf(batches, k - 1) + |batches[k - 1].lines|) + batches[k].dropped
  }

  /** Every batch is one contiguous window of the history; successive windows are disjoint,
      in order, and separated by exactly the reported drops. */
  lemma {:induction false} CoversWindows(batches: seq<Batch>, history: seq<string>, k: nat)
    requires Covers(batches, history) && k < |batches|
    ensures StartOf(batches, k) + |batches[k].lines| <= |history|
    ensures batches[k].lines == history[StartOf(batches, k)..][..|batches[k].lines|]
    ensures k == |batches| - 1 ==> StartOf(batches, k) + |batches[k].lines| == |history|
    decreases |batches|
  {
    var n := |batches|;
    var b := batches[n - 1];
    var init, rest := batches[..n - 1], history[..|history| - Size(b)];
    if k < n - 1 {
      CoversWindows(init, rest, k);
      StartOfPrefix(batches, n - 1, k);
      assert history[StartOf(batches, k)..][..|batches[k].lines|] == rest[StartOf(init, k)..][..|init[k].lines|];
    } else if n > 1 {
      CoversWindows(init, rest, n - 2);
      StartOfPrefix(batches, n - 1, n - 2);
      assert StartOf(batches, k) == |history| - |b.lines|;
      assert history[StartOf(batches, k)..][..|b.lines|] == history[StartOf(batches, k)..];
    } else {
      assert history[StartOf(batches, k)..][..|b.lines|] == history[StartOf(batches, k)..];
    }
  }

  lemma {:induction false} StartOfPrefix(batches: seq<Batch>, n: nat, k: nat)
    requires k < n <= |batches|
    ensures StartOf(batches[..n], k) == StartOf(batches, k)
  {
    if k > 0 {
      StartOfPrefix(batches, n, k - 1);
    }
  }

  // ---- subsequences ------------------------------------------------------------

  ghost predicate IsSubsequence(a: seq<string>, b: seq<string>)
    decreases |b|
  {
    || a == []
    || (b != [] && a[|a| - 1] == b[|b| - 1] && IsSubsequence(a[..|a| - 1], b[..|b| - 1]))
    || (b != [] && IsSubsequence(a, b[..|b| - 1]))
  }

  lemma {:induction false} SubsequenceSkip(a: seq<string>, b: seq<string>, gap: seq<string>)
    requires IsSubsequence(a, b)
    ensures IsSubsequence(a, b + gap)
  {
    if gap == [] {
      assert b + gap == b;
    } else {
      SubsequenceSkip(a, b, gap[..|gap| - 1]);
      assert (b + gap)[..|b + gap| - 1] == b + gap[..|gap| - 1];
    }
  }

  lemma {:induction false} SubsequenceKeep(a: seq<string>, b: seq<string>, x: seq<string>)
    requires IsSubsequence(a, b)
    ensures IsSubsequence(a + x, b + x)
  {
    if x == [] {
      assert a + x == a && b + x == b;
    } else {
      SubsequenceKeep(a, b, x[..|x| - 1]);
      assert (a + x)[..|a + x| - 1] == a + x[..|x| - 1];
      assert (b + x)[..|b + x| - 1] == b + x[..|x| - 1];
    }
  }

  ghost function Flatten(batches: seq<Batch>): seq<string> {
    if batches == [] then [] else Flatten(batches[..|batches| - 1]) + batches[|batches| - 1].lines
  }

  /** The batches concatenated in drain order are a subsequence of the append order. */
  lemma {:induction false} CoversSubsequence(batches: seq<Batch>, history: seq<string>)
    requires Covers(batches, history)
    ensures IsSubsequence(Flatten(batches), history)
    decreases |batches|
  {
    if batches != [] {
      var b := batches[|batches| - 1];
      var rest := history[..|history| - Size(b)];
      var gap := history[|history| - Size(b)..|history| - |b.lines|];
      CoversSubsequence(batches[..|batches| - 1], rest);
      SubsequenceSkip(Flatten(batches[..|batches| - 1]), rest, gap);
      SubsequenceKeep(Flatten(batches[..|batches| - 1]), rest + gap, b.lines);
      assert rest + gap + b.lines == history;
    }
  }
}
