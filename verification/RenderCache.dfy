/** The per-row render cache and the table object that keeps it (internal/component/table.go). */
module RenderCache {
  import opened Text
  import opened Rows
  import opened Widths
  import opened Table

  // ---- cache keys ------------------------------------------------------------------------

  function Itoa(n: int): string
    decreases if n < 0 then 1 - n else n
  {
    if n < 0 then "-" + Itoa(-n)
    else if n < 10 then [('0' as int + n) as char]
    else Itoa(n / 10) + [('0' as int + n % 10) as char]
  }

  function BoolStr(b: bool): string { if b then "1" else "0" }

  /** What the key holds of the row itself. */
  function Identity(r: Row): string { r.uid + "|" + r.version }

  function SuffixAt(width: int, sortCol: nat, selected: bool, marked: bool): string {
    "|" + Itoa(width) + "|" + BoolStr(selected) + "|" + BoolStr(marked) + "|" + Itoa(sortCol)
  }

  function KeyAt(r: Row, width: int, sortCol: nat, selected: bool, marked: bool): string {
    Identity(r) + SuffixAt(width, sortCol, selected, marked)
  }

  function Suffix(k: Look, selected: bool, marked: bool): string {
    SuffixAt(k.width, k.sortCol, selected, marked)
  }

  function Key(k: Look, r: Row, selected: bool, marked: bool): string {
    KeyAt(r, k.width, k.sortCol, selected, marked)
  }

  lemma SuffixInjective(k: Look, s: bool, m: bool, s': bool, m': bool)
    ensures |Suffix(k, s, m)| == |Suffix(k, s', m')|
    ensures Suffix(k, s, m) == Suffix(k, s', m') ==> s == s' && m == m'
  {
    var w := |Itoa(k.width)|;
    assert Suffix(k, s, m)[w + 2] == BoolStr(s)[0] && Suffix(k, s, m)[w + 4] == BoolStr(m)[0];
    assert Suffix(k, s', m')[w + 2] == BoolStr(s')[0] && Suffix(k, s', m')[w + 4] == BoolStr(m')[0];
  }

  /** At one width and sort column, equal keys mean equal identity, selection and mark. */
  lemma KeyInjective(k: Look, r: Row, s: bool, m: bool, r': Row, s': bool, m': bool)
    requires Key(k, r, s, m) == Key(k, r', s', m')
    ensures Identity(r) == Identity(r') && s == s' && m == m'
    ensures r.uid + "|" + r.version == r'.uid + "|" + r'.version
  {
    SuffixInjective(k, s, m, s', m');
    var n := |Identity(r)|;
    assert Key(k, r, s, m)[..n] == Identity(r) && Key(k, r', s', m')[..n] == Identity(r');
    assert Key(k, r, s, m)[n..] == Suffix(k, s, m) && Key(k, r', s', m')[n..] == Suffix(k, s', m');
  }

  /** Among cacheable rows, identity determines the row. */
  ghost predicate Identified(rows: seq<Row>) {
    forall r, r' :: r in rows && r' in rows && r.uid != "" && r'.uid != "" && Identity(r) == Identity(r') ==> r == r'
  }

  /** Distinct non-empty uids without a bar are enough; versions may be anything. */
  lemma DistinctUidsIdentify(rows: seq<Row>)
    requires forall i :: 0 <= i < |rows| ==> '|' !in rows[i].uid
    requires forall i, j :: 0 <= i < j < |rows| && rows[i].uid != "" ==> rows[i].uid != rows[j].uid
    ensures Identified(rows)
  {
    forall r, r' | r in rows && r' in rows && r.uid != "" && r'.uid != "" && Identity(r) == Identity(r')
      ensures r == r'
    {
      CutIs(r.uid, '|', r.version);
      CutIs(r'.uid, '|', r'.version);
      var i :| 0 <= i < |rows| && rows[i] == r;
      var j :| 0 <= j < |rows| && rows[j] == r';
      assert r.uid == r'.uid;
    }
  }

  // ---- coherence -----------------------------------------------------------------------------

  /** The line a row renders to without any cache. */
  function Direct(render: Renderer, k: Look, r: Row, selected: bool, marked: bool): string {
    render(k.theme, k.cols, Solve(k.cols, k.width, k.theme.CellPad()), r, selected, marked)
  }

  ghost predicate Coherent(render: Renderer, k: Look, cache: map<string, string>) {
    forall r, s, m :: r in k.rows && r.uid != "" && Key(k, r, s, m) in cache ==>
      cache[Key(k, r, s, m)] == Direct(render, k, r, s, m)
  }

  function KeysOf(k: Look, rows: seq<Row>): set<string> {
    if rows == [] then {}
    else {Key(k, rows[0], false, false), Key(k, rows[0], false, true),
          Key(k, rows[0], true, false), Key(k, rows[0], true, true)} + KeysOf(k, rows[1..])
  }

  lemma {:induction false} KeysOfHas(k: Look, rows: seq<Row>, r: Row, s: bool, m: bool)
    requires r in rows
    ensures Key(k, r, s, m) in KeysOf(k, rows)
  {
    if rows[0] != r {
      KeysOfHas(k, rows[1..], r, s, m);
    }
  }

  lemma {:induction false} KeysOfSize(k: Look, rows: seq<Row>)
    ensures |KeysOf(k, rows)| <= 4 * |rows|
  {
    if rows != [] {
      KeysOfSize(k, rows[1..]);
      var four := {Key(k, rows[0], false, false), Key(k, rows[0], false, true),
                   Key(k, rows[0], true, false), Key(k, rows[0], true, true)};
      assert KeysOf(k, rows) == four + KeysOf(k, rows[1..]);
      FourAtMost(Key(k, rows[0], false, false), Key(k, rows[0], false, true),
                 Key(k, rows[0], true, false), Key(k, rows[0], true, true));
      UnionSize(four, KeysOf(k, rows[1..]));
    }
  }

  lemma FourAtMost(a: string, b: string, c: string, d: string)
    ensures |{a, b, c, d}| <= 4
  {
    UnionSize({a, b}, {c, d});
    assert {a, b} + {c, d} == {a, b, c, d};
  }

  lemma UnionSize(a: set<string>, b: set<string>)
    ensures |a + b| <= |a| + |b|
  {
    assert a + b == a + (b - a);
    SubsetSize(b - a, b);
  }

  lemma {:induction false} SubsetSize(a: set<string>, b: set<string>)
    requires a <= b
    ensures |a| <= |b|
    decreases a
  {
    if a != {} {
      var x :| x in a;
      SubsetSize(a - {x}, b - {x});
    }
  }

  /** At most four entries per current row. */
  lemma CacheIsBounded(k: Look, cache: map<string, string>)
    requires cache.Keys <= KeysOf(k, k.rows)
    ensures |cache| <= 4 * |k.rows|
  {
    SubsetSize(cache.Keys, KeysOf(k, k.rows));
    KeysOfSize(k, k.rows);
  }

  /** Storing a freshly rendered line keeps the cache coherent. */
  lemma StoreKeepsCoherent(render: Renderer, k: Look, cache: map<string, string>, r: Row, s: bool, m: bool)
    requires Identified(k.rows) && Coherent(render, k, cache) && r in k.rows && r.uid != ""
    ensures Coherent(render, k, cache[Key(k, r, s, m) := Direct(render, k, r, s, m)])
  {
    var next := cache[Key(k, r, s, m) := Direct(render, k, r, s, m)];
    forall r', s', m' | r' in k.rows && r'.uid != "" && Key(k, r', s', m') in next
      ensures next[Key(k, r', s', m')] == Direct(render, k, r', s', m')
    {
      if Key(k, r', s', m') == Key(k, r, s, m) {
        KeyInjective(k, r', s', m', r, s, m);
      }
    }
  }

  /** Operations that touch neither theme, columns, width, sort column nor rows keep it as it is. */
  lemma MoveKeepsCoherent(render: Renderer, k: Look, k': Look, cache: map<string, string>)
    requires k'.theme == k.theme && k'.cols == k.cols && k'.rows == k.rows
    requires k'.width == k.width && k'.sortCol == k.sortCol
    requires cache.Keys <= KeysOf(k, k.rows)
    ensures Coherent(render, k, cache) ==> Coherent(render, k', cache)
    ensures cache.Keys <= KeysOf(k', k'.rows)
  {
    SameKeys(k, k', k.rows);
    if Coherent(render, k, cache) {
      forall r, s, m | r in k'.rows && r.uid != "" && Key(k', r, s, m) in cache
        ensures cache[Key(k', r, s, m)] == Direct(render, k', r, s, m)
      {
        assert Key(k', r, s, m) == Key(k, r, s, m);
      }
    }
  }

  lemma {:induction false} SameKeys(k: Look, k': Look, rows: seq<Row>)
    requires k'.width == k.width && k'.sortCol == k.sortCol
    ensures KeysOf(k', rows) == KeysOf(k, rows)
  {
    if rows != [] {
      SameKeys(k, k', rows[1..]);
    }
  }

  // ---- the visible window -----------------------------------------------------------------------

  function WindowEnd(k: Look): int { if k.offset + k.height > |k.rows| then |k.rows| else k.offset + k.height }

  /** Row i as it stands in the table: its uncached line and its key. */
  function DirectAt(render: Renderer, k: Look, i: nat): string
    requires i < |k.rows|
  {
    Direct(render, k, k.rows[i], i == k.cursor, k.rows[i].uid in k.marked)
  }

  function KeyFor(k: Look, i: nat): string
    requires i < |k.rows|
  {
    Key(k, k.rows[i], i == k.cursor, k.rows[i].uid in k.marked)
  }

  /** What rendering row i returns, and the cache it leaves. */
  function LineAt(render: Renderer, k: Look, cache: map<string, string>, i: nat): string
    requires i < |k.rows|
  {
    if k.rows[i].uid != "" && KeyFor(k, i) in cache then cache[KeyFor(k, i)] else DirectAt(render, k, i)
  }

  function CacheAfter(render: Renderer, k: Look, cache: map<string, string>, i: nat): map<string, string>
    requires i < |k.rows|
  {
    if k.rows[i].uid != "" && KeyFor(k, i) !in cache then cache[KeyFor(k, i) := DirectAt(render, k, i)] else cache
  }

  /** The lines of rows i to end, rendered one after the other through the cache. */
  function WindowLines(render: Renderer, k: Look, cache: map<string, string>, i: nat, end: int): (lines: seq<string>)
    requires end <= |k.rows|
    ensures |lines| == if i < end then end - i else 0
    decreases end - i
  {
    if i >= end then []
    else [LineAt(render, k, cache, i)] + WindowLines(render, k, CacheAfter(render, k, cache, i), i + 1, end)
  }

  function WindowCache(render: Renderer, k: Look, cache: map<string, string>, i: nat, end: int): map<string, string>
    requires end <= |k.rows|
    decreases end - i
  {
    if i >= end then cache else WindowCache(render, k, CacheAfter(render, k, cache, i), i + 1, end)
  }

  /** The same lines without a cache. */
  function DirectLines(render: Renderer, k: Look, i: nat, end: int): (lines: seq<string>)
    requires end <= |k.rows|
    ensures |lines| == if i < end then end - i else 0
    decreases end - i
  {
    if i >= end then [] else [DirectAt(render, k, i)] + DirectLines(render, k, i + 1, end)
  }

  function Newlines(n: int): string
    decreases if n > 0 then n else 0
  {
    if n <= 0 then "" else "\n" + Newlines(n - 1)
  }

  /** The lines of the window, one below the other, filled up to the height. */
  function BodyOf(k: Look, lines: seq<string>): string {
    if k.height <= 0 then "" else Join(lines, "\n") + Newlines(k.height - (WindowEnd(k) - k.offset))
  }

  function DirectBody(render: Renderer, k: Look): string
    requires k.offset >= 0
  {
    BodyOf(k, DirectLines(render, k, k.offset, WindowEnd(k)))
  }

  function CachedBody(render: Renderer, k: Look, cache: map<string, string>): string
    requires k.offset >= 0
  {
    BodyOf(k, WindowLines(render, k, cache, k.offset, WindowEnd(k)))
  }

  /** The window is every row there is from the offset on, as far as the height goes, each rendered
      with the theme, the columns and their widths, and whether it is selected and marked. */
  lemma ShowsItsRows(render: Renderer, k: Look, i: nat)
    requires k.offset <= i < k.offset + k.height && i < |k.rows| && k.offset >= 0
    ensures i < WindowEnd(k) <= |k.rows| && WindowEnd(k) <= k.offset + k.height
    ensures DirectLines(render, k, k.offset, WindowEnd(k))[i - k.offset]
         == render(k.theme, k.cols, Solve(k.cols, k.width, k.theme.CellPad()), k.rows[i], i == k.cursor, k.rows[i].uid in k.marked)
  {
    DirectLineAt(render, k, k.offset, i, WindowEnd(k));
  }

  /** Through a coherent cache the lines are the uncached ones. */
  lemma {:induction false} CoherentWindow(render: Renderer, k: Look, cache: map<string, string>, i: nat, end: int)
    requires Identified(k.rows) && Coherent(render, k, cache) && end <= |k.rows|
    ensures WindowLines(render, k, cache, i, end) == DirectLines(render, k, i, end)
    decreases end - i
  {
    if i < end {
      RowKeepsCoherent(render, k, cache, i);
      CoherentWindow(render, k, CacheAfter(render, k, cache, i), i + 1, end);
    }
  }

  lemma RowKeepsCoherent(render: Renderer, k: Look, cache: map<string, string>, i: nat)
    requires Identified(k.rows) && Coherent(render, k, cache) && i < |k.rows|
    ensures LineAt(render, k, cache, i) == DirectAt(render, k, i)
    ensures Coherent(render, k, CacheAfter(render, k, cache, i))
  {
    var r := k.rows[i];
    assert r in k.rows;
    if r.uid != "" {
      StoreKeepsCoherent(render, k, cache, r, i == k.cursor, r.uid in k.marked);
    }
  }

  // ---- when a fresh cache gives the uncached lines -------------------------------------------------

  predicate Cacheable(k: Look, i: nat)
    requires i < |k.rows|
  {
    k.rows[i].uid != ""
  }

  /** Two visible rows share a key and look different. */
  ghost predicate Clash(render: Renderer, k: Look, i: nat, j: nat)
    requires i < |k.rows| && j < |k.rows|
  {
    Cacheable(k, i) && Cacheable(k, j) && KeyFor(k, i) == KeyFor(k, j) && DirectAt(render, k, i) != DirectAt(render, k, j)
  }

  ghost predicate NoClash(render: Renderer, k: Look, from: nat, end: int)
    requires end <= |k.rows|
  {
    forall i, j :: from <= i < j < end ==> !Clash(render, k, i, j)
  }

  /** What the cache already holds for the visible rows is what they look like. */
  ghost predicate Fits(render: Renderer, k: Look, cache: map<string, string>, from: nat, end: int)
    requires end <= |k.rows|
  {
    forall i :: from <= i < end && Cacheable(k, i) && KeyFor(k, i) in cache ==> cache[KeyFor(k, i)] == DirectAt(render, k, i)
  }

  lemma RowKeepsFit(render: Renderer, k: Look, cache: map<string, string>, i: nat, end: int)
    requires i < end <= |k.rows| && Fits(render, k, cache, i, end) && NoClash(render, k, i, end)
    ensures Fits(render, k, CacheAfter(render, k, cache, i), i + 1, end)
  {
    var next := CacheAfter(render, k, cache, i);
    forall j | i < j < end && Cacheable(k, j) && KeyFor(k, j) in next
      ensures next[KeyFor(k, j)] == DirectAt(render, k, j)
    {
      if KeyFor(k, j) !in cache {
        assert !Clash(render, k, i, j);
      }
    }
  }

  lemma {:induction false} FittingLinesAreDirect(render: Renderer, k: Look, cache: map<string, string>, i: nat, end: int)
    requires end <= |k.rows| && Fits(render, k, cache, i, end) && NoClash(render, k, i, end)
    ensures WindowLines(render, k, cache, i, end) == DirectLines(render, k, i, end)
    decreases end - i
  {
    if i < end {
      RowKeepsFit(render, k, cache, i, end);
      FittingLinesAreDirect(render, k, CacheAfter(render, k, cache, i), i + 1, end);
    }
  }

  /** A line once cached is what every later row with its key is given. */
  lemma {:induction false} LaterLine(render: Renderer, k: Look, cache: map<string, string>, i: nat, j: nat, end: int)
    requires i <= j < end <= |k.rows| && Cacheable(k, j) && KeyFor(k, j) in cache
    ensures WindowLines(render, k, cache, i, end)[j - i] == cache[KeyFor(k, j)]
    decreases j - i
  {
    if i < j {
      LaterLine(render, k, CacheAfter(render, k, cache, i), i + 1, j, end);
    }
  }

  /** So two visible rows with one key get one line, whatever they look like. */
  lemma {:induction false} OneKeyOneLine(render: Renderer, k: Look, cache: map<string, string>, from: nat, i: nat, j: nat, end: int)
    requires from <= i < j < end <= |k.rows| && Cacheable(k, i) && Cacheable(k, j) && KeyFor(k, i) == KeyFor(k, j)
    ensures var lines := WindowLines(render, k, cache, from, end); lines[i - from] == lines[j - from]
    decreases i - from
  {
    var next := CacheAfter(render, k, cache, from);
    LinesTail(render, k, cache, from, j, end);
    if from < i {
      LinesTail(render, k, cache, from, i, end);
      OneKeyOneLine(render, k, next, from + 1, i, j, end);
    } else {
      RowIsStored(render, k, cache, i);
      LaterLine(render, k, next, from + 1, j, end);
    }
  }

  lemma LinesTail(render: Renderer, k: Look, cache: map<string, string>, from: nat, i: nat, end: int)
    requires from < i < end <= |k.rows|
    ensures WindowLines(render, k, cache, from, end)[0] == LineAt(render, k, cache, from)
    ensures WindowLines(render, k, cache, from, end)[i - from]
         == WindowLines(render, k, CacheAfter(render, k, cache, from), from + 1, end)[i - from - 1]
  {
  }

  lemma RowIsStored(render: Renderer, k: Look, cache: map<string, string>, i: nat)
    requires i < |k.rows| && Cacheable(k, i)
    ensures var next := CacheAfter(render, k, cache, i);
      KeyFor(k, i) in next && next[KeyFor(k, i)] == LineAt(render, k, cache, i)
  {
  }

  lemma {:induction false} DirectLineAt(render: Renderer, k: Look, from: nat, i: nat, end: int)
    requires from <= i < end <= |k.rows|
    ensures DirectLines(render, k, from, end)[i - from] == DirectAt(render, k, i)
    decreases i - from
  {
    if from < i {
      DirectLineAt(render, k, from + 1, i, end);
    }
  }

  lemma DirectLinesFit(render: Renderer, k: Look, cache: map<string, string>, from: nat, end: int)
    requires end <= |k.rows| && WindowLines(render, k, cache, from, end) == DirectLines(render, k, from, end)
    ensures Fits(render, k, cache, from, end)
  {
    forall i | from <= i < end && Cacheable(k, i) && KeyFor(k, i) in cache
      ensures cache[KeyFor(k, i)] == DirectAt(render, k, i)
    {
      LaterLine(render, k, cache, from, i, end);
      DirectLineAt(render, k, from, i, end);
    }
  }

  lemma DirectLinesDoNotClash(render: Renderer, k: Look, cache: map<string, string>, from: nat, end: int)
    requires end <= |k.rows| && WindowLines(render, k, cache, from, end) == DirectLines(render, k, from, end)
    ensures NoClash(render, k, from, end)
  {
    forall i, j | from <= i < j < end ensures !Clash(render, k, i, j) {
      if Cacheable(k, i) && Cacheable(k, j) && KeyFor(k, i) == KeyFor(k, j) {
        OneKeyOneLine(render, k, cache, from, i, j, end);
        DirectLineAt(render, k, from, i, end);
        DirectLineAt(render, k, from, j, end);
      }
    }
  }

  /** Through any cache, every line is the uncached one if and only if what the cache holds for
      the visible rows is what they look like, and no two of them share a key and look different. */
  lemma LinesAreDirectIff(render: Renderer, k: Look, cache: map<string, string>, from: nat, end: int)
    requires end <= |k.rows|
    ensures WindowLines(render, k, cache, from, end) == DirectLines(render, k, from, end) <==>
            Fits(render, k, cache, from, end) && NoClash(render, k, from, end)
  {
    if WindowLines(render, k, cache, from, end) == DirectLines(render, k, from, end) {
      DirectLinesFit(render, k, cache, from, end);
      DirectLinesDoNotClash(render, k, cache, from, end);
    } else if Fits(render, k, cache, from, end) && NoClash(render, k, from, end) {
      FittingLinesAreDirect(render, k, cache, from, end);
    }
  }

  ghost predicate PlainCache(cache: map<string, string>) {
    forall key :: key in cache ==> Free(cache[key], IsNewline)
  }

  /** When the look of the visible rows and the cache make the body the uncached one. */
  ghost predicate ShowsDirect(render: Renderer, k: Look, cache: map<string, string>)
    requires k.offset >= 0
  {
    Fits(render, k, cache, k.offset, WindowEnd(k)) && NoClash(render, k, k.offset, WindowEnd(k))
  }

  /** The same for the whole body, when rows render to single lines. */
  lemma BodyIsDirectIff(render: Renderer, k: Look, cache: map<string, string>)
    requires OneLine(render) && PlainCache(cache) && k.offset >= 0 && k.height > 0
    ensures CachedBody(render, k, cache) == DirectBody(render, k) <==> ShowsDirect(render, k, cache)
  {
    var end := WindowEnd(k);
    var cached, direct := WindowLines(render, k, cache, k.offset, end), DirectLines(render, k, k.offset, end);
    LinesAreDirectIff(render, k, cache, k.offset, end);
    DirectLinesArePlain(render, k, k.offset, end);
    WindowLinesArePlain(render, k, cache, k.offset, end);
    SameBody(k, cached, direct);
  }

  lemma SameBody(k: Look, a: seq<string>, b: seq<string>)
    requires k.height > 0 && |a| == |b| && AllFree(a, IsNewline) && AllFree(b, IsNewline)
    ensures BodyOf(k, a) == BodyOf(k, b) <==> a == b
  {
    SameJoin(a, b);
    SamePrefix(Join(a, "\n"), Join(b, "\n"), Newlines(k.height - (WindowEnd(k) - k.offset)));
  }

  lemma BodyFacts(render: Renderer, k: Look, cache: map<string, string>)
    requires k.offset >= 0 && (Identified(k.rows) ==> Coherent(render, k, cache)) && (OneLine(render) ==> PlainCache(cache))
    ensures Identified(k.rows) ==> CachedBody(render, k, cache) == DirectBody(render, k)
    ensures OneLine(render) && k.height > 0 ==>
              (CachedBody(render, k, cache) == DirectBody(render, k) <==> ShowsDirect(render, k, cache))
  {
    if Identified(k.rows) {
      CoherentWindow(render, k, cache, k.offset, WindowEnd(k));
    }
    if OneLine(render) && k.height > 0 {
      BodyIsDirectIff(render, k, cache);
    }
  }

  /** Right after new rows the cache is empty, and only a clash in view matters. */
  lemma FreshBodyIsDirectIff(render: Renderer, k: Look)
    requires OneLine(render) && k.offset >= 0 && k.height > 0
    ensures CachedBody(render, k, map[]) == DirectBody(render, k) <==> NoClash(render, k, k.offset, WindowEnd(k))
  {
    BodyIsDirectIff(render, k, map[]);
  }

  /** One move later a row out of view matters too: in a window one row high, two rows of one
      identity never clash, and yet the second is shown the first one's line. */
  lemma MoveShowsOldLine(render: Renderer, k: Look)
    requires |k.rows| == 2 && k.height == 1 && k.offset == 0 && k.cursor == 0
    requires k.rows[0].uid != "" && k.rows[1].uid == k.rows[0].uid && k.rows[1].version == k.rows[0].version
    ensures NoClash(render, k, 0, 1) && NoClash(render, Moved(k, 1), 1, 2) && Moved(k, 1).offset == 1
    ensures CachedBody(render, Moved(k, 1), WindowCache(render, k, map[], 0, 1)) == CachedBody(render, k, map[])
  {
    var next := Moved(k, 1);
    var cache := CacheAfter(render, k, map[], 0);
    assert WindowCache(render, k, map[], 0, 1) == cache;
    assert KeyFor(next, 1) == KeyFor(k, 0);
    assert LineAt(render, next, cache, 1) == LineAt(render, k, map[], 0);
    assert WindowLines(render, next, cache, 1, 2) == [LineAt(render, next, cache, 1)];
    assert WindowLines(render, k, map[], 0, 1) == [LineAt(render, k, map[], 0)];
  }

  lemma SameJoin(a: seq<string>, b: seq<string>)
    requires |a| == |b| && AllFree(a, IsNewline) && AllFree(b, IsNewline)
    ensures Join(a, "\n") == Join(b, "\n") <==> a == b
  {
    if a != [] {
      SplitJoin(a, '\n', IsNewline);
      SplitJoin(b, '\n', IsNewline);
    }
  }

  lemma SamePrefix(a: string, b: string, c: string)
    ensures a + c == b + c <==> a == b
  {
    if a + c == b + c {
      assert |a| == |b|;
      assert (a + c)[..|a|] == a && (b + c)[..|b|] == b;
    }
  }

  lemma {:induction false} PlainLine(s: string)
    requires LineBreaks(s) == 0
    ensures Free(s, IsNewline)
  {
    if s != "" {
      PlainLine(s[1..]);
    }
  }

  lemma {:induction false} DirectLinesArePlain(render: Renderer, k: Look, i: nat, end: int)
    requires OneLine(render) && end <= |k.rows|
    ensures AllFree(DirectLines(render, k, i, end), IsNewline)
    decreases end - i
  {
    if i < end {
      DirectLinesArePlain(render, k, i + 1, end);
      PlainLine(DirectAt(render, k, i));
    }
  }

  lemma {:induction false} WindowLinesArePlain(render: Renderer, k: Look, cache: map<string, string>, i: nat, end: int)
    requires OneLine(render) && end <= |k.rows| && PlainCache(cache)
    ensures AllFree(WindowLines(render, k, cache, i, end), IsNewline)
    decreases end - i
  {
    if i < end {
      PlainLine(DirectAt(render, k, i));
      WindowLinesArePlain(render, k, CacheAfter(render, k, cache, i), i + 1, end);
    }
  }

  // ---- what every render keeps of the cache ------------------------------------------------------

  /** Every cached line is current, as long as identity determines the row; the cache holds
      nothing but lines of current rows, single ones if rows render to single lines. */
  ghost predicate CacheOk(render: Renderer, k: Look, cache: map<string, string>) {
    && (Identified(k.rows) ==> Coherent(render, k, cache))
    && cache.Keys <= KeysOf(k, k.rows)
    && (OneLine(render) ==> PlainCache(cache))
  }

  lemma RowKeepsCacheOk(render: Renderer, k: Look, cache: map<string, string>, i: nat)
    requires CacheOk(render, k, cache) && i < |k.rows|
    ensures CacheOk(render, k, CacheAfter(render, k, cache, i))
  {
    if Identified(k.rows) {
      RowKeepsCoherent(render, k, cache, i);
    }
    KeysOfHas(k, k.rows, k.rows[i], i == k.cursor, k.rows[i].uid in k.marked);
    if OneLine(render) {
      PlainLine(DirectAt(render, k, i));
    }
  }

  lemma {:induction false} WindowKeepsCacheOk(render: Renderer, k: Look, cache: map<string, string>, i: nat, end: int)
    requires CacheOk(render, k, cache) && end <= |k.rows|
    ensures CacheOk(render, k, WindowCache(render, k, cache, i, end))
    decreases end - i
  {
    if i < end {
      RowKeepsCacheOk(render, k, cache, i);
      WindowKeepsCacheOk(render, k, CacheAfter(render, k, cache, i), i + 1, end);
    }
  }

  // ---- the height of the body --------------------------------------------------------------------

  function LineBreaks(s: string): nat {
    if s == "" then 0 else (if s[0] == '\n' then 1 else 0) + LineBreaks(s[1..])
  }

  lemma {:induction false} LineBreaksConcat(a: string, b: string)
    ensures LineBreaks(a + b) == LineBreaks(a) + LineBreaks(b)
  {
    if a == "" {
      assert a + b == b;
    } else {
      LineBreaksConcat(a[1..], b);
      Uncons(a, b);
    }
  }

  /** A row is rendered to one line. */
  ghost predicate OneLine(render: Renderer) {
    forall theme, cols, widths, r, s, m :: LineBreaks(render(theme, cols, widths, r, s, m)) == 0
  }

  lemma {:induction false} DirectLinesBreaks(render: Renderer, k: Look, i: nat, end: int)
    requires OneLine(render) && i <= end <= |k.rows|
    ensures LineBreaks(Join(DirectLines(render, k, i, end), "\n")) == if i < end then end - i - 1 else 0
    decreases end - i
  {
    if i < end {
      DirectLinesBreaks(render, k, i + 1, end);
      var line, rest := DirectAt(render, k, i), DirectLines(render, k, i + 1, end);
      assert LineBreaks(line) == 0;
      Uncons([line], rest);
      LineBreaksConcat(line + "\n", Join(rest, "\n"));
      LineBreaksConcat(line, "\n");
      assert LineBreaks("\n") == 1;
    }
  }

  lemma {:induction false} NewlinesBreaks(n: int)
    ensures LineBreaks(Newlines(n)) == if n > 0 then n else 0
    decreases if n > 0 then n else 0
  {
    if n > 0 {
      NewlinesBreaks(n - 1);
      assert ("\n" + Newlines(n - 1))[1..] == Newlines(n - 1);
    }
  }

  /** The body fills its height exactly, except on an empty table, where it is one line longer. */
  lemma BodyHeight(render: Renderer, k: Look)
    requires OneLine(render) && InView(k) && k.height > 0
    ensures LineBreaks(DirectBody(render, k)) == if k.rows == [] then k.height else k.height - 1
  {
    var end := WindowEnd(k);
    DirectLinesBreaks(render, k, k.offset, end);
    NewlinesBreaks(k.height - (end - k.offset));
    LineBreaksConcat(Join(DirectLines(render, k, k.offset, end), "\n"), Newlines(k.height - (end - k.offset)));
  }

  // ---- the table object ---------------------------------------------------------------------------

  class Widget {
    const render: Renderer
    const sorter: Sorter
    var theme: Theme
    var cols: seq<Column>
    var rows: seq<Row>
    var sortCol: nat
    var sortDesc: bool
    var cursor: int
    var offset: int
    var width: int
    var height: int
    var widths: Option<seq<int>>
    var cache: map<string, string>
    var marked: set<string>

    ghost function View(): Look
      reads this
    {
      Look(theme, cols, rows, sortCol, sortDesc, cursor, offset, width, height, marked)
    }

    /** The cursor is in view, the sort loses no row, and resolved widths and the cache are current. */
    ghost predicate Valid()
      reads this
    {
      && InView(View()) && KeepsCount(sorter)
      && (widths.Some? ==> widths.value == Solve(cols, width, theme.CellPad()))
      && CacheOk(render, View(), cache)
    }

    constructor (theme: Theme, render: Renderer, sorter: Sorter)
      requires SortsStably(sorter)
      ensures Valid() && View() == Fresh(theme) && this.render == render && this.sorter == sorter
    {
      this.theme, this.render, this.sorter := theme, render, sorter;
      cols, rows, sortCol, sortDesc := [], [], 0, false;
      cursor, offset, width, height := 0, 0, 0, 0;
      widths, cache, marked := None, map[], {};
      SortKeepsCount(sorter);
    }

    method SetTheme(theme: Theme)
      requires Valid()
      modifies this
      ensures Valid() && View() == old(View()).(theme := theme)
    {
      this.theme := theme;
      widths := None;
      cache := map[];
    }

    method SetColumns(cols: seq<Column>)
      requires Valid()
      modifies this
      ensures Valid() && View() == WithColumns(old(View()), cols)
      ensures this.cols == cols && sortCol == if old(sortCol) < |cols| then old(sortCol) else 0
    {
      this.cols := cols;
      widths := None;
      cache := map[];
      if sortCol >= |cols| {
        sortCol := 0;
      }
    }

    method ApplySort()
      modifies this
      ensures View() == old(View()).(rows := sorter(old(rows), sortCol, sortDesc))
      ensures widths == old(widths) && cache == old(cache)
    {
      rows := sorter(rows, sortCol, sortDesc);
    }

    method ClampCursor()
      modifies this
      ensures View() == Clamped(old(View())) && widths == old(widths) && cache == old(cache)
    {
      if cursor < 0 {
        cursor := 0;
      }
      if cursor >= |rows| {
        cursor := |rows| - 1;
      }
      if cursor < 0 {
        cursor := 0;
      }
    }

    method EnsureVisible()
      modifies this
      ensures View() == Revealed(old(View())) && widths == old(widths) && cache == old(cache)
    {
      if height <= 0 {
        return;
      }
      if cursor < offset {
        offset := cursor;
      }
      if cursor >= offset + height {
        offset := cursor - height + 1;
      }
      if offset < 0 {
        offset := 0;
      }
    }

    method SetRows(rows: seq<Row>)
      requires Valid()
      modifies this
      ensures Valid() && View() == WithRows(sorter, old(View()), rows) && cache == map[]
    {
      var uid := SelectedUid();
      this.rows := rows;
      ApplySort();
      cache := map[];
      var at := 0;
      if uid != "" {
        at := FindRow(this.rows, uid);
      }
      Place(at);
    }

    method SelectedUid() returns (uid: string)
      ensures uid == if Selected(View()).Some? then Selected(View()).value.uid else ""
    {
      uid := if 0 <= cursor < |rows| then rows[cursor].uid else "";
    }

    /** Puts the cursor, then clamps and reveals it. */
    method Place(at: int)
      requires offset >= 0
      modifies this
      ensures View() == Moved(old(View()), at) && InView(View())
      ensures widths == old(widths) && cache == old(cache)
    {
      MovedInView(View(), at);
      cursor := at;
      ClampCursor();
      EnsureVisible();
    }

    static method FindRow(rows: seq<Row>, uid: string) returns (at: nat)
      ensures at == IndexOf(rows, uid)
    {
      for i := 0 to |rows|
        invariant i <= FirstWith(rows, uid)
      {
        if rows[i].uid == uid {
          return i;
        }
      }
      return 0;
    }

    method SetSize(width: int, bodyHeight: int)
      requires Valid()
      modifies this
      ensures Valid() && View() == WithSize(old(View()), width, bodyHeight)
      ensures this.width == width && height == bodyHeight && cursor == old(cursor)
    {
      if width != this.width {
        widths := None;
        cache := map[];
      }
      ghost var before := View();
      this.width := width;
      height := bodyHeight;
      RevealedInView(View());
      EnsureVisible();
      MoveKeepsCoherent(render, before.(width := width), View(), cache);
    }

    method SetSortState(col: int, desc: bool)
      requires Valid()
      modifies this
      ensures Valid() && View() == WithSortState(sorter, old(View()), col, desc)
      ensures 0 <= col < |cols| ==> sortCol == col && sortDesc == desc && rows == sorter(old(rows), sortCol, sortDesc)
      ensures col < 0 || col >= |cols| ==> View() == old(View())
    {
      if col < 0 || col >= |cols| {
        return;
      }
      ResortKeepsInView(sorter, View(), col, desc);
      sortCol := col;
      sortDesc := desc;
      ApplySort();
      cache := map[];
    }

    /** Selecting the current column again toggles the direction. */
    method SetSort(col: int)
      requires Valid()
      modifies this
      ensures Valid() && View() == WithSort(sorter, old(View()), col)
      ensures 0 <= col < |cols| ==>
                && sortCol == col && sortDesc == (col == old(sortCol) && !old(sortDesc))
                && rows == sorter(old(rows), sortCol, sortDesc)
      ensures col < 0 || col >= |cols| ==> View() == old(View())
    {
      if col == sortCol {
        SetSortState(col, !sortDesc);
      } else {
        SetSortState(col, false);
      }
    }

    method ToggleMark()
      requires Valid()
      modifies this
      ensures Valid() && View() == Toggled(old(View()))
      ensures 0 <= cursor < |rows| ==>
                if rows[cursor].uid in old(marked) then marked == old(marked) - {rows[cursor].uid}
                else marked == old(marked) + {rows[cursor].uid}
    {
      if 0 <= cursor < |rows| {
        var uid := rows[cursor].uid;
        if uid in marked {
          marked := marked - {uid};
        } else {
          marked := marked + {uid};
        }
        MoveKeepsCoherent(render, old(View()), View(), cache);
      }
    }

    method ClearMarks()
      requires Valid()
      modifies this
      ensures Valid() && View() == old(View()).(marked := {})
    {
      marked := {};
      MoveKeepsCoherent(render, old(View()), View(), cache);
    }

    /** The marked rows in display order; marks on absent rows are pruned. */
    method MarkedRows() returns (out: seq<Row>)
      requires Valid()
      modifies this
      ensures Valid() && View() == Pruned(old(View()))
      ensures forall u :: u in marked <==> u in old(marked) && exists r :: r in rows && r.uid == u
      ensures out == MarkedOf(rows, old(marked))
    {
      var present;
      out, present := Collect(rows, marked);
      marked := marked * present;
      assert marked == old(marked) * Uids(rows);
      MoveKeepsCoherent(render, old(View()), View(), cache);
    }

    static method Collect(rows: seq<Row>, marked: set<string>) returns (out: seq<Row>, present: set<string>)
      ensures out == MarkedOf(rows, marked) && present == marked * Uids(rows)
    {
      out, present := [], {};
      var i := 0;
      while i < |rows|
        invariant 0 <= i <= |rows|
        invariant out + MarkedOf(rows[i..], marked) == MarkedOf(rows, marked)
        invariant present == marked * Uids(rows[..i])
      {
        var r := rows[i];
        assert rows[i..][0] == r && rows[i..][1..] == rows[i + 1..];
        assert rows[..i + 1] == rows[..i] + [r];
        UidsSnoc(rows[..i], r);
        if r.uid in marked {
          Assoc(out, [r], MarkedOf(rows[i + 1..], marked));
          out := out + [r];
          present := present + {r.uid};
        }
        i := i + 1;
      }
      assert rows[i..] == [] && rows[..i] == rows && out + [] == out;
    }

    method MoveTo(target: int)
      requires Valid()
      modifies this
      ensures Valid() && View() == Moved(old(View()), target)
      ensures rows != [] ==> cursor == if target < 0 then 0 else if target >= |rows| then |rows| - 1 else target
      ensures rows == old(rows) && (rows == [] ==> cursor == 0)
    {
      MovedToNearest(View(), target);
      Place(target);
      MoveKeepsCoherent(render, old(View()), View(), cache);
    }

    method MoveUp()
      requires Valid()
      modifies this
      ensures Valid() && View() == Moved(old(View()), old(cursor) - 1)
      ensures cursor == if old(cursor) > 0 then old(cursor) - 1 else 0
    {
      MoveTo(cursor - 1);
    }

    method MoveDown()
      requires Valid()
      modifies this
      ensures Valid() && View() == Moved(old(View()), old(cursor) + 1)
      ensures cursor == if old(cursor) + 1 < |rows| then old(cursor) + 1 else old(cursor)
    {
      MoveTo(cursor + 1);
    }

    /** Does not clamp: 0 is always in range. */
    method Home()
      requires Valid()
      modifies this
      ensures Valid() && View() == Revealed(old(View()).(cursor := 0)) && cursor == 0
    {
      RevealedInView(View().(cursor := 0));
      cursor := 0;
      EnsureVisible();
      MoveKeepsCoherent(render, old(View()), View(), cache);
    }

    method End()
      requires Valid()
      modifies this
      ensures Valid() && View() == Moved(old(View()), |rows| - 1)
      ensures cursor == if rows == [] then 0 else |rows| - 1
    {
      MoveTo(|rows| - 1);
    }

    method PageUp()
      requires Valid()
      modifies this
      ensures Valid() && View() == Moved(old(View()), old(cursor) - old(height))
      ensures old(height) >= 0 ==> cursor == if old(cursor) > old(height) then old(cursor) - old(height) else 0
    {
      MoveTo(cursor - height);
    }

    method PageDown()
      requires Valid()
      modifies this
      ensures Valid() && View() == Moved(old(View()), old(cursor) + old(height))
      ensures old(height) >= 0 && rows != [] ==>
                cursor == if old(cursor) + old(height) < |rows| then old(cursor) + old(height) else |rows| - 1
    {
      MoveTo(cursor + height);
    }

    method ResolveWidths()
      requires Valid()
      modifies this`widths
      ensures Valid() && widths == Some(Solve(cols, width, theme.CellPad()))
    {
      if widths.Some? && |widths.value| == |cols| {
        return;
      }
      var w := Widths.ResolveWidths(cols, width, theme.CellPad());
      widths := Some(w);
    }

    /** A cached or freshly rendered line, and the cache that is left. */
    method RenderRow(i: nat) returns (line: string)
      requires i < |rows| && widths == Some(Solve(cols, width, theme.CellPad()))
      modifies this`cache
      ensures line == LineAt(render, View(), old(cache), i) && cache == CacheAfter(render, View(), old(cache), i)
      ensures rows[i].uid == "" ==>
                line == render(theme, cols, Solve(cols, width, theme.CellPad()), rows[i], i == cursor, rows[i].uid in marked)
      ensures old(Valid()) ==> Valid()
    {
      var row, selected := rows[i], i == cursor;
      var mark := row.uid in marked;
      var cacheable := row.uid != "";
      var key := KeyAt(row, width, sortCol, selected, mark);
      if cacheable && key in cache {
        return cache[key];
      }
      line := render(theme, cols, widths.value, row, selected, mark);
      if cacheable {
        if Valid() {
          RowKeepsCacheOk(render, View(), cache, i);
        }
        cache := cache[key := line];
      }
    }

    /** The body through the cache, and the cache it leaves, so that renders chain: the uncached
        body as long as identity determines the row, and for single-line rows exactly when the
        cache fits what is visible. The cache stays within four lines per row. */
    method Body() returns (out: string)
      requires Valid()
      modifies this`widths, this`cache
      ensures Valid() && |cache| <= 4 * |rows|
      ensures out == CachedBody(render, View(), old(cache))
      ensures cache == WindowCache(render, View(), old(cache), offset, WindowEnd(View()))
      ensures Identified(rows) ==> out == DirectBody(render, View())
      ensures OneLine(render) && height > 0 ==>
                (out == DirectBody(render, View()) <==> ShowsDirect(render, View(), old(cache)))
    {
      BodyFacts(render, View(), cache);
      WindowKeepsCacheOk(render, View(), cache, offset, WindowEnd(View()));
      ResolveWidths();
      out := "";
      if height > 0 {
        out := RenderBody();
      }
      CacheIsBounded(View(), cache);
    }

    method RenderBody() returns (out: string)
      requires widths == Some(Solve(cols, width, theme.CellPad())) && height > 0 && offset >= 0
      modifies this`cache
      ensures out == CachedBody(render, View(), old(cache))
      ensures cache == WindowCache(render, View(), old(cache), offset, WindowEnd(View()))
    {
      var end := offset + height;
      if end > |rows| {
        end := |rows|;
      }
      var lines := RenderWindow(end);
      out := Pad(lines, end - offset, height);
    }

    /** One round of Body's loop: the line, and a break unless it is the last. */
    method AppendRow(before: string, i: nat, end: int) returns (out: string)
      requires widths == Some(Solve(cols, width, theme.CellPad())) && i < end <= |rows|
      modifies this`cache
      ensures cache == CacheAfter(render, View(), old(cache), i)
      ensures WindowCache(render, View(), cache, i + 1, end) == WindowCache(render, View(), old(cache), i, end)
      ensures out + Join(WindowLines(render, View(), cache, i + 1, end), "\n")
           == before + Join(WindowLines(render, View(), old(cache), i, end), "\n")
    {
      var line := RenderRow(i);
      out := before + line;
      if i < end - 1 {
        out := out + "\n";
      }
      JoinFrom(before, line, WindowLines(render, View(), cache, i + 1, end));
    }

    method RenderWindow(end: int) returns (out: string)
      requires widths == Some(Solve(cols, width, theme.CellPad())) && end <= |rows| && offset >= 0
      modifies this`cache
      ensures out == Join(WindowLines(render, View(), old(cache), offset, end), "\n")
      ensures cache == WindowCache(render, View(), old(cache), offset, end)
    {
      out := "";
      var i := offset;
      ghost var k := View();
      ghost var whole := Join(WindowLines(render, k, cache, offset, end), "\n");
      ghost var left := WindowCache(render, k, cache, offset, end);
      while i < end
        invariant offset <= i && (i <= end || i == offset)
        invariant View() == k
        invariant out + Join(WindowLines(render, k, cache, i, end), "\n") == whole
        invariant WindowCache(render, k, cache, i, end) == left
      {
        out := AppendRow(out, i, end);
        i := i + 1;
      }
      assert out + "" == out;
    }

    /** Blank lines for the rest of the height. */
    static method Pad(body: string, rendered: int, height: int) returns (out: string)
      ensures out == body + Newlines(height - rendered)
    {
      out := body;
      var i := rendered;
      while i < height
        invariant rendered <= i && (i <= height || i == rendered)
        invariant out + Newlines(height - i) == body + Newlines(height - rendered)
        decreases height - i
      {
        Assoc(out, "\n", Newlines(height - i - 1));
        out := out + "\n";
        i := i + 1;
      }
      assert out + "" == out;
    }
  }

  lemma UidsSnoc(rows: seq<Row>, r: Row)
    ensures Uids(rows + [r]) == Uids(rows) + {r.uid}
  {
    assert r in rows + [r] && forall x :: x in rows ==> x in rows + [r];
  }

  lemma JoinFrom(before: string, line: string, rest: seq<string>)
    ensures before + Join([line] + rest, "\n") ==
            (before + line + if rest == [] then "" else "\n") + Join(rest, "\n")
  {
    Uncons([line], rest);
    if rest != [] {
      assert before + (line + "\n" + Join(rest, "\n")) == (before + line + "\n") + Join(rest, "\n");
    }
  }
}
