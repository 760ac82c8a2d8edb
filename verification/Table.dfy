/** The windowed table widget (internal/component/table.go): sort, selection, scrolling, marks and
    the render cache. Rendering one row is an uninterpreted pure function, and so is the library's
    stable sort, of which only its documented promise is used. */
module Table {
  import opened Text
  import opened Rows
  import opened StableSorting
  import opened Picking

  datatype Theme = Theme(style: string, compact: bool) {
    function CellPad(): int { if compact then 1 else 2 }
  }

  type Renderer = (Theme, seq<Column>, seq<int>, Row, bool, bool) -> string
  type Sorter = (seq<Row>, nat, bool) -> seq<Row>

  /** Everything the table shows, apart from what it caches. */
  datatype Look = Look(
    theme: Theme, cols: seq<Column>, rows: seq<Row>, sortCol: nat, sortDesc: bool,
    cursor: int, offset: int, width: int, height: int, marked: set<string>)

  // ---- the sort ------------------------------------------------------------------------

  /** The comparator handed to sort.SliceStable: rows without the key compare as equal. */
  function Comparator(col: nat, desc: bool): (Row, Row) -> bool {
    (a: Row, b: Row) =>
      if col >= |a.sortKeys| || col >= |b.sortKeys| then false
      else if desc then KeyLess(b.sortKeys[col], a.sortKeys[col])
      else KeyLess(a.sortKeys[col], b.sortKeys[col])
  }

  ghost predicate AllKeyed(rows: seq<Row>, col: nat) {
    forall i :: 0 <= i < |rows| ==> col < |rows[i].sortKeys|
  }

  function KeyOf(r: Row, col: nat): SortKey
    requires col < |r.sortKeys|
  {
    r.sortKeys[col]
  }

  ghost predicate SomeNaN(rows: seq<Row>, col: nat)
    requires AllKeyed(rows, col)
  {
    exists i :: 0 <= i < |rows| && IsNaN(KeyOf(rows[i], col))
  }

  ghost predicate NumbersDiffer(rows: seq<Row>, col: nat)
    requires AllKeyed(rows, col)
  {
    exists j, k :: 0 <= j < |rows| && 0 <= k < |rows| && KeyOf(rows[j], col).isNum && KeyOf(rows[k], col).isNum
                   && KeyLess(KeyOf(rows[j], col), KeyOf(rows[k], col))
  }

  /** Every row has the key, and no NaN stands among different numbers. */
  ghost predicate Sortable(rows: seq<Row>, col: nat) {
    AllKeyed(rows, col) && !(SomeNaN(rows, col) && NumbersDiffer(rows, col))
  }

  ghost predicate NothingLess(rows: seq<Row>, col: nat, desc: bool) {
    forall x, y :: x in rows && y in rows ==> !Comparator(col, desc)(x, y)
  }

  lemma ComparatorOrder(rows: seq<Row>, i: nat, j: nat, k: nat, col: nat, desc: bool)
    requires Sortable(rows, col) && i < |rows| && j < |rows| && k < |rows|
    ensures var less := Comparator(col, desc);
            && !(less(rows[i], rows[j]) && less(rows[j], rows[i]))
            && (less(rows[i], rows[k]) ==> less(rows[i], rows[j]) || less(rows[j], rows[k]))
  {
    var a, b, c := KeyOf(rows[i], col), KeyOf(rows[j], col), KeyOf(rows[k], col);
    KeyLessOrder(a, b, c);
    KeyLessOrder(c, b, a);
  }

  lemma NotWeak(rows: seq<Row>, x: Row, n: Row, y: Row, less: (Row, Row) -> bool)
    requires x in rows && n in rows && y in rows && less(x, y) && !less(x, n) && !less(n, y)
    ensures !WeakOn(rows, less)
  {
  }

  lemma NaNBreaksOrder(rows: seq<Row>, col: nat, desc: bool)
    requires AllKeyed(rows, col) && SomeNaN(rows, col) && NumbersDiffer(rows, col)
    ensures !WeakOn(rows, Comparator(col, desc)) && !NothingLess(rows, col, desc)
  {
    var i :| 0 <= i < |rows| && IsNaN(KeyOf(rows[i], col));
    var j, k :| 0 <= j < |rows| && 0 <= k < |rows| && KeyOf(rows[j], col).isNum && KeyOf(rows[k], col).isNum
                && KeyLess(KeyOf(rows[j], col), KeyOf(rows[k], col));
    if desc {
      NotWeak(rows, rows[k], rows[i], rows[j], Comparator(col, desc));
    } else {
      NotWeak(rows, rows[j], rows[i], rows[k], Comparator(col, desc));
    }
  }

  lemma MissingKeyTiesAll(rows: seq<Row>, col: nat, desc: bool)
    requires !AllKeyed(rows, col) && WeakOn(rows, Comparator(col, desc))
    ensures NothingLess(rows, col, desc)
  {
    var less := Comparator(col, desc);
    var i :| 0 <= i < |rows| && col >= |rows[i].sortKeys|;
    forall x, y | x in rows && y in rows ensures !less(x, y) {
      assert rows[i] in rows && !less(x, rows[i]) && !less(rows[i], y);
    }
  }

  /** The comparator is a strict weak order if and only if every row has the key and no NaN
      stands among different numbers, or it never tells two rows apart. */
  lemma ComparatorIsWeakOrder(rows: seq<Row>, col: nat, desc: bool)
    ensures WeakOn(rows, Comparator(col, desc)) <==> Sortable(rows, col) || NothingLess(rows, col, desc)
  {
    var less := Comparator(col, desc);
    if Sortable(rows, col) {
      forall x, y, z | x in rows && y in rows && z in rows
        ensures !(less(x, y) && less(y, x)) && (less(x, z) ==> less(x, y) || less(y, z))
      {
        var i :| 0 <= i < |rows| && rows[i] == x;
        var j :| 0 <= j < |rows| && rows[j] == y;
        var k :| 0 <= k < |rows| && rows[k] == z;
        ComparatorOrder(rows, i, j, k, col, desc);
      }
    } else if AllKeyed(rows, col) {
      NaNBreaksOrder(rows, col, desc);
    } else if WeakOn(rows, less) {
      MissingKeyTiesAll(rows, col, desc);
    }
  }

  /** What sort.SliceStable documents. */
  ghost predicate SortsStably(sorter: Sorter) {
    forall rows, col, desc {:trigger sorter(rows, col, desc)} ::
      && multiset(sorter(rows, col, desc)) == multiset(rows)
      && (WeakOn(rows, Comparator(col, desc)) ==>
            && Ordered(sorter(rows, col, desc), Comparator(col, desc))
            && Stable(rows, sorter(rows, col, desc), Comparator(col, desc)))
  }

  /** With every key present and comparable there is one possible outcome: the stable, ordered permutation. */
  lemma SortIsDetermined(sorter: Sorter, rows: seq<Row>, col: nat, desc: bool)
    requires SortsStably(sorter) && Sortable(rows, col)
    ensures sorter(rows, col, desc) == StableSort(rows, Comparator(col, desc))
  {
    var less := Comparator(col, desc);
    ComparatorIsWeakOrder(rows, col, desc);
    var a, b := sorter(rows, col, desc), StableSort(rows, less);
    SortIsStable(rows, less);
    SameElements(a, rows);
    SameElements(b, rows);
    assert forall x :: x in a + b ==> x in rows;
    StableSortIsUnique(a, b, less);
  }

  /** What the two directions mean: read upwards for ascending and downwards for descending, numbers
      come before texts, numbers do not decrease, and texts do not go down in the alphabet. */
  lemma SortedByKey(sorter: Sorter, rows: seq<Row>, col: nat, desc: bool, i: nat, j: nat)
    requires SortsStably(sorter) && Sortable(rows, col) && i < j < |rows|
    ensures var sorted := sorter(rows, col, desc);
      && |sorted| == |rows| && col < |sorted[i].sortKeys| && col < |sorted[j].sortKeys|
      && var x, y := sorted[if desc then j else i].sortKeys[col], sorted[if desc then i else j].sortKeys[col];
      && (y.isNum ==> x.isNum)
      && (x.isNum && y.isNum && x.num.Finite? && y.num.Finite? ==> x.num.value <= y.num.value)
      && (x.isNum && y.isNum && x.num.PosInf? && y.num != NaN ==> y.num.PosInf?)
      && (x.isNum && y.isNum && y.num.NegInf? && x.num != NaN ==> x.num.NegInf?)
      && (!x.isNum && !y.isNum ==> !StrLess(y.str, x.str))
  {
    var sorted := sorter(rows, col, desc);
    ComparatorIsWeakOrder(rows, col, desc);
    SameElements(sorted, rows);
    assert sorted[i] in rows && sorted[j] in rows;
    assert !Comparator(col, desc)(sorted[j], sorted[i]);
  }

  // ---- selection and scrolling, as functions of the look ---------------------------------

  function Clamped(k: Look): Look {
    var c := if k.cursor < 0 then 0 else k.cursor;
    var d := if c >= |k.rows| then |k.rows| - 1 else c;
    k.(cursor := if d < 0 then 0 else d)
  }

  function Revealed(k: Look): Look {
    if k.height <= 0 then k
    else
      var o := if k.cursor < k.offset then k.cursor else k.offset;
      var p := if k.cursor >= o + k.height then k.cursor - k.height + 1 else o;
      k.(offset := if p < 0 then 0 else p)
  }

  function Moved(k: Look, cursor: int): Look { Revealed(Clamped(k.(cursor := cursor))) }

  function Selected(k: Look): Option<Row> {
    if 0 <= k.cursor < |k.rows| then Some(k.rows[k.cursor]) else None
  }

  /** The first row with the uid, or |rows|. */
  function FirstWith(rows: seq<Row>, uid: string): (i: nat)
    ensures i <= |rows| && (i < |rows| ==> rows[i].uid == uid)
    ensures forall k :: 0 <= k < i ==> rows[k].uid != uid
  {
    if rows == [] || rows[0].uid == uid then 0
    else
      var i := 1 + FirstWith(rows[1..], uid);
      assert forall k :: 0 < k < i ==> rows[k] == rows[1..][k - 1];
      i
  }

  /** The first row with the uid, or 0. */
  function IndexOf(rows: seq<Row>, uid: string): nat {
    var i := FirstWith(rows, uid);
    if i < |rows| then i else 0
  }

  lemma {:induction false} FirstWithFinds(rows: seq<Row>, uid: string)
    requires uid in Uids(rows)
    ensures FirstWith(rows, uid) < |rows|
  {
    var r :| r in rows && r.uid == uid;
    if rows[0].uid != uid {
      assert r in rows[1..];
      FirstWithFinds(rows[1..], uid);
    }
  }

  function WithRows(sorter: Sorter, k: Look, rows: seq<Row>): Look {
    var sel := Selected(k);
    var next := k.(rows := sorter(rows, k.sortCol, k.sortDesc));
    Moved(next, if sel.Some? && sel.value.uid != "" then IndexOf(next.rows, sel.value.uid) else 0)
  }

  function WithSize(k: Look, width: int, height: int): Look { Revealed(k.(width := width, height := height)) }

  function WithColumns(k: Look, cols: seq<Column>): Look {
    k.(cols := cols, sortCol := if k.sortCol >= |cols| then 0 else k.sortCol)
  }

  function WithSortState(sorter: Sorter, k: Look, col: int, desc: bool): Look {
    if col < 0 || col >= |k.cols| then k
    else k.(sortCol := col, sortDesc := desc, rows := sorter(k.rows, col, desc))
  }

  function WithSort(sorter: Sorter, k: Look, col: int): Look {
    WithSortState(sorter, k, col, if col == k.sortCol then !k.sortDesc else false)
  }

  function Toggled(k: Look): Look {
    match Selected(k)
    case None => k
    case Some(r) => k.(marked := if r.uid in k.marked then k.marked - {r.uid} else k.marked + {r.uid})
  }

  function Uids(rows: seq<Row>): set<string> { set r | r in rows :: r.uid }

  function IsMarked(marked: set<string>): Row -> bool { (r: Row) => r.uid in marked }

  /** The present marked rows. */
  function MarkedOf(rows: seq<Row>, marked: set<string>): seq<Row> { Pick(rows, IsMarked(marked)) }

  function Pruned(k: Look): Look { k.(marked := k.marked * Uids(k.rows)) }

  // ---- every operation keeps the cursor on a row and on the screen -----------------------

  datatype Op =
    | SetTheme(theme: Theme) | SetColumns(cols: seq<Column>) | SetRows(rows: seq<Row>)
    | SetSize(width: int, height: int) | SetSortState(col: int, desc: bool) | SetSort(column: int)
    | ToggleMark | ClearMarks | MarkedRows
    | MoveUp | MoveDown | Home | End | PageUp | PageDown | Body

  function Apply(sorter: Sorter, k: Look, op: Op): Look {
    match op
    case SetTheme(theme) => k.(theme := theme)
    case SetColumns(cols) => WithColumns(k, cols)
    case SetRows(rows) => WithRows(sorter, k, rows)
    case SetSize(width, height) => WithSize(k, width, height)
    case SetSortState(col, desc) => WithSortState(sorter, k, col, desc)
    case SetSort(col) => WithSort(sorter, k, col)
    case ToggleMark => Toggled(k)
    case ClearMarks => k.(marked := {})
    case MarkedRows => Pruned(k)
    case MoveUp => Moved(k, k.cursor - 1)
    case MoveDown => Moved(k, k.cursor + 1)
    case Home => Revealed(k.(cursor := 0))
    case End => Moved(k, |k.rows| - 1)
    case PageUp => Moved(k, k.cursor - k.height)
    case PageDown => Moved(k, k.cursor + k.height)
    case Body => k
  }

  function ApplyAll(sorter: Sorter, k: Look, ops: seq<Op>): Look
    decreases |ops|
  {
    if ops == [] then k else ApplyAll(sorter, Apply(sorter, k, ops[0]), ops[1..])
  }

  function Fresh(theme: Theme): Look { Look(theme, [], [], 0, false, 0, 0, 0, 0, {}) }

  /** The cursor is a row, or 0 on an empty table; with a positive height it is on the screen. */
  predicate InView(k: Look) {
    && 0 <= k.cursor && 0 <= k.offset
    && (k.rows == [] ==> k.cursor == 0) && (k.rows != [] ==> k.cursor < |k.rows|)
    && (k.height > 0 ==> k.offset <= k.cursor < k.offset + k.height)
  }

  lemma MovedInView(k: Look, cursor: int)
    requires k.offset >= 0
    ensures InView(Moved(k, cursor))
  {
  }

  lemma RevealedInView(k: Look)
    requires k.offset >= 0 && 0 <= k.cursor && k.cursor < (if k.rows == [] then 1 else |k.rows|)
    ensures InView(Revealed(k))
  {
  }

  /** Moving puts the cursor on the row asked for, or the nearest there is. */
  lemma MovedToNearest(k: Look, cursor: int)
    ensures var next := Moved(k, cursor);
      && next.rows == k.rows && next.marked == k.marked && next.height == k.height && next.width == k.width
      && next.cols == k.cols && next.sortCol == k.sortCol && next.sortDesc == k.sortDesc && next.theme == k.theme
      && (0 <= cursor < |k.rows| ==> next.cursor == cursor)
      && (cursor < 0 || k.rows == [] ==> next.cursor == 0)
      && (k.rows != [] && cursor >= |k.rows| ==> next.cursor == |k.rows| - 1)
  {
  }

  /** It scrolls no further than it must. */
  lemma ScrollIsMinimal(k: Look, o: int)
    requires k.height > 0 && k.offset >= 0 && k.cursor >= 0 && 0 <= o <= k.cursor < o + k.height
    ensures var next := Revealed(k);
      && next == k.(offset := next.offset) && 0 <= next.offset <= k.cursor < next.offset + k.height
      && (if next.offset < k.offset then k.offset - next.offset else next.offset - k.offset)
         <= (if o < k.offset then k.offset - o else o - k.offset)
  {
  }

  /** New rows without the selected object put the cursor on the first row. */
  lemma LostSelectionGoesHome(sorter: Sorter, k: Look, rows: seq<Row>)
    requires SortsStably(sorter)
    requires Selected(k).None? || Selected(k).value.uid == "" || Selected(k).value.uid !in Uids(rows)
    ensures WithRows(sorter, k, rows).cursor == 0
  {
    var next := sorter(rows, k.sortCol, k.sortDesc);
    SameElements(next, rows);
    assert Uids(next) == Uids(rows);
    if Selected(k).Some? {
      var i := FirstWith(next, Selected(k).value.uid);
      assert i < |next| ==> next[i] in next;
    }
  }

  /** Toggling changes the mark of the selected object and of no other; twice changes nothing. */
  lemma ToggleFlipsOne(k: Look, uid: string)
    ensures Toggled(k) == k.(marked := Toggled(k).marked) && Toggled(Toggled(k)) == k
    ensures uid in Toggled(k).marked <==> (uid in k.marked) != (Selected(k).Some? && Selected(k).value.uid == uid)
  {
    if Selected(k).Some? {
      var u := Selected(k).value.uid;
      assert k.marked - {u} + {u} == k.marked || u !in k.marked;
      assert k.marked + {u} - {u} == k.marked || u in k.marked;
    }
  }

  /** Sorting neither loses nor invents rows. */
  ghost predicate KeepsCount(sorter: Sorter) {
    forall rows, col, desc {:trigger sorter(rows, col, desc)} :: |sorter(rows, col, desc)| == |rows|
  }

  lemma SortKeepsCount(sorter: Sorter)
    requires SortsStably(sorter)
    ensures KeepsCount(sorter)
  {
    forall rows, col, desc ensures |sorter(rows, col, desc)| == |rows| {
      SameElements(sorter(rows, col, desc), rows);
    }
  }

  lemma StepKeepsInView(sorter: Sorter, k: Look, op: Op)
    requires InView(k) && (op.MoveUp? || op.MoveDown? || op.Home?)
    ensures InView(Apply(sorter, k, op))
  {
    match op
    case MoveUp => MovedInView(k, k.cursor - 1);
    case MoveDown => MovedInView(k, k.cursor + 1);
    case Home => RevealedInView(k.(cursor := 0));
  }

  lemma JumpKeepsInView(sorter: Sorter, k: Look, op: Op)
    requires InView(k) && (op.End? || op.PageUp? || op.PageDown?)
    ensures InView(Apply(sorter, k, op))
  {
    match op
    case End => MovedInView(k, |k.rows| - 1);
    case PageUp => MovedInView(k, k.cursor - k.height);
    case PageDown => MovedInView(k, k.cursor + k.height);
  }

  lemma SetKeepsInView(sorter: Sorter, k: Look, op: Op)
    requires KeepsCount(sorter) && InView(k)
    requires op.SetRows? || op.SetSize? || op.SetSortState? || op.SetSort?
    ensures InView(Apply(sorter, k, op))
  {
    match op
    case SetRows(rows) =>
      var sel := Selected(k);
      var next := k.(rows := sorter(rows, k.sortCol, k.sortDesc));
      MovedInView(next, if sel.Some? && sel.value.uid != "" then IndexOf(next.rows, sel.value.uid) else 0);
    case SetSize(width, height) => RevealedInView(k.(width := width, height := height));
    case SetSortState(col, desc) => ResortKeepsInView(sorter, k, col, desc);
    case SetSort(col) => ResortKeepsInView(sorter, k, col, if col == k.sortCol then !k.sortDesc else false);
  }

  lemma ResortKeepsInView(sorter: Sorter, k: Look, col: int, desc: bool)
    requires KeepsCount(sorter) && InView(k)
    ensures InView(WithSortState(sorter, k, col, desc))
  {
    if 0 <= col < |k.cols| {
      assert |sorter(k.rows, col, desc)| == |k.rows|;
    }
  }

  lemma ApplyKeepsInView(sorter: Sorter, k: Look, op: Op)
    requires KeepsCount(sorter) && InView(k)
    ensures InView(Apply(sorter, k, op))
  {
    if op.MoveUp? || op.MoveDown? || op.Home? {
      StepKeepsInView(sorter, k, op);
    } else if op.End? || op.PageUp? || op.PageDown? {
      JumpKeepsInView(sorter, k, op);
    } else if op.SetRows? || op.SetSize? || op.SetSortState? || op.SetSort? {
      SetKeepsInView(sorter, k, op);
    }
  }

  /** After any sequence of operations the cursor is valid and visible. */
  lemma {:induction false} CursorStaysInView(sorter: Sorter, k: Look, ops: seq<Op>)
    requires KeepsCount(sorter) && InView(k)
    ensures InView(ApplyAll(sorter, k, ops))
    decreases |ops|
  {
    if ops != [] {
      ApplyKeepsInView(sorter, k, ops[0]);
      CursorStaysInView(sorter, Apply(sorter, k, ops[0]), ops[1..]);
    }
  }

  /** So for every new table and every sort that keeps its promise, whatever is done to it. */
  lemma CursorAlwaysInView(sorter: Sorter, theme: Theme, ops: seq<Op>)
    requires SortsStably(sorter)
    ensures InView(ApplyAll(sorter, Fresh(theme), ops))
  {
    SortKeepsCount(sorter);
    CursorStaysInView(sorter, Fresh(theme), ops);
  }

  /** Replacing the rows keeps the selected object whenever it is still there, and yields the
      stable ordered permutation when every row has a comparable sort key. */
  lemma RefreshKeepsSelection(sorter: Sorter, k: Look, rows: seq<Row>)
    requires SortsStably(sorter)
    ensures var next := WithRows(sorter, k, rows);
            && multiset(next.rows) == multiset(rows)
            && (Sortable(rows, k.sortCol) ==> next.rows == StableSort(rows, Comparator(k.sortCol, k.sortDesc)))
            && (Selected(k).Some? && Selected(k).value.uid != "" && Selected(k).value.uid in Uids(rows) ==>
                  Selected(next).Some? && Selected(next).value.uid == Selected(k).value.uid)
  {
    var next := sorter(rows, k.sortCol, k.sortDesc);
    SameElements(next, rows);
    assert Uids(next) == Uids(rows);
    if Selected(k).Some? && Selected(k).value.uid in Uids(rows) {
      FirstWithFinds(next, Selected(k).value.uid);
    }
    if Sortable(rows, k.sortCol) {
      SortIsDetermined(sorter, rows, k.sortCol, k.sortDesc);
    }
  }

  ghost predicate DistinctUids(rows: seq<Row>) {
    forall i, j :: 0 <= i < j < |rows| ==> rows[i].uid != rows[j].uid
  }

  lemma {:induction false} OnceCounted(rows: seq<Row>, r: Row)
    requires DistinctUids(rows)
    ensures multiset(rows)[r] <= 1
  {
    if rows != [] {
      var rest := rows[1..];
      OnceCounted(rest, r);
      assert rows == [rows[0]] + rest;
      assert rows[0] !in rest by {
        assert forall j :: 0 <= j < |rest| ==> rest[j] == rows[j + 1];
      }
    }
  }

  lemma TwiceCounted(rows: seq<Row>, i: nat, j: nat)
    requires i < j < |rows| && rows[i] == rows[j]
    ensures multiset(rows)[rows[i]] >= 2
  {
    assert rows == rows[..j] + rows[j..];
    assert rows[..j][i] == rows[i] && rows[j..][0] == rows[j];
    assert rows[i] in multiset(rows[..j]) && rows[i] in multiset(rows[j..]);
  }

  /** Rearranged rows with distinct uids: the object shown at one place is nowhere else. */
  lemma OnePlace(rows: seq<Row>, sorted: seq<Row>, r: Row, i: nat, j: nat)
    requires multiset(sorted) == multiset(rows) && DistinctUids(rows) && r in rows
    requires i < |sorted| && j < |sorted| && sorted[i] == r
    ensures sorted[j].uid == r.uid <==> i == j
  {
    SameElements(sorted, rows);
    if sorted[j].uid == r.uid {
      assert sorted[j] in rows;
      var a :| 0 <= a < |rows| && rows[a] == sorted[j];
      var b :| 0 <= b < |rows| && rows[b] == r;
      assert a == b;
      OnceCounted(rows, r);
      if i < j {
        TwiceCounted(sorted, i, j);
      } else if j < i {
        TwiceCounted(sorted, j, i);
      }
    }
  }

  /** Sorting keeps the cursor's index, not its object: the same object stays selected if and
      only if the rows before it in the new order, and the ties ahead of it, number as many as
      the rows above the cursor now. */
  lemma ResortKeepsSelectionIff(sorter: Sorter, k: Look, col: nat, desc: bool)
    requires SortsStably(sorter) && col < |k.cols| && Sortable(k.rows, col) && DistinctUids(k.rows)
    requires Selected(k).Some?
    ensures var next := WithSortState(sorter, k, col, desc);
      && Selected(next).Some?
      && (Selected(next).value.uid == Selected(k).value.uid <==>
            Rank(k.rows, k.cursor, Comparator(col, desc)) == k.cursor)
  {
    var less := Comparator(col, desc);
    LandsAtRank(sorter, k.rows, k.cursor, col, desc);
    assert k.rows[k.cursor] in k.rows;
    OnePlace(k.rows, sorter(k.rows, col, desc), k.rows[k.cursor], Rank(k.rows, k.cursor, less), k.cursor);
  }

  lemma LandsAtRank(sorter: Sorter, rows: seq<Row>, i: nat, col: nat, desc: bool)
    requires SortsStably(sorter) && Sortable(rows, col) && i < |rows|
    ensures var sorted, rank := sorter(rows, col, desc), Rank(rows, i, Comparator(col, desc));
      multiset(sorted) == multiset(rows) && |sorted| == |rows| && rank < |rows| && sorted[rank] == rows[i]
  {
    ComparatorIsWeakOrder(rows, col, desc);
    SortIsDetermined(sorter, rows, col, desc);
    SortedAtRank(rows, i, Comparator(col, desc));
  }

  /** For instance, turning the direction round on two rows in order moves the selection. */
  lemma ResortMovesSelection(sorter: Sorter, k: Look)
    requires SortsStably(sorter) && k.sortCol < |k.cols| && Sortable(k.rows, k.sortCol) && DistinctUids(k.rows)
    requires |k.rows| == 2 && k.cursor == 0 && Comparator(k.sortCol, !k.sortDesc)(k.rows[1], k.rows[0])
    ensures Selected(WithSort(sorter, k, k.sortCol)).Some?
    ensures Selected(WithSort(sorter, k, k.sortCol)).value.uid != Selected(k).value.uid
  {
    var less, a := Comparator(k.sortCol, !k.sortDesc), k.rows[0];
    ResortKeepsSelectionIff(sorter, k, k.sortCol, !k.sortDesc);
    assert k.rows[1..][1..] == [] && k.rows[1..][0] == k.rows[1];
    assert Smaller(k.rows[1..], a, less) == 1;
  }

  /** MarkedOf is exactly the marked rows, in display order. */
  lemma {:induction false} MarkedOfIsExact(rows: seq<Row>, marked: set<string>)
    ensures forall r :: r in MarkedOf(rows, marked) <==> r in rows && r.uid in marked
    ensures MarkedOf(rows, marked) == MarkedOf(rows, marked * Uids(rows))
    ensures MarkedOf(rows, marked) == [] <==> marked * Uids(rows) == {}
  {
    MarkedMembers(rows, marked);
    MarkedCongruent(rows, marked, marked * Uids(rows));
    if MarkedOf(rows, marked) != [] {
      var r := MarkedOf(rows, marked)[0];
      assert r in MarkedOf(rows, marked);
      assert r.uid in marked * Uids(rows);
    }
    if marked * Uids(rows) != {} {
      var u :| u in marked * Uids(rows);
      var r :| r in rows && r.uid == u;
      assert r in MarkedOf(rows, marked);
    }
  }

  /** Each present marked row once per occurrence, and in display order. */
  lemma MarkedInDisplayOrder(rows: seq<Row>, marked: set<string>) returns (idx: seq<nat>)
    ensures Selection(rows, IsMarked(marked), idx, MarkedOf(rows, marked))
  {
    idx := PickIsSelection(rows, IsMarked(marked));
  }

  lemma {:induction false} MarkedMembers(rows: seq<Row>, marked: set<string>)
    ensures forall r :: r in MarkedOf(rows, marked) <==> r in rows && r.uid in marked
  {
    if rows != [] {
      MarkedMembers(rows[1..], marked);
      assert forall r :: r in rows <==> r == rows[0] || r in rows[1..];
    }
  }

  lemma {:induction false} MarkedCongruent(rows: seq<Row>, a: set<string>, b: set<string>)
    requires forall r :: r in rows ==> (r.uid in a <==> r.uid in b)
    ensures MarkedOf(rows, a) == MarkedOf(rows, b)
  {
    if rows != [] {
      assert forall r :: r in rows[1..] ==> r in rows;
      MarkedCongruent(rows[1..], a, b);
      assert rows[0] in rows;
    }
  }
}
