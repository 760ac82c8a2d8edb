/** The line diff with resynchronisation (internal/action/apply/diff.go). */
module LineDiff {
  import opened Text

  datatype Tag = Context | Removed | Added
  datatype Edit = Edit(tag: Tag, line: string)

  // ---- lines of a text -------------------------------------------------------

  /** The lines of a text, without the empty element a trailing newline produces. */
  function SplitLines(text: string): seq<string> {
    if text == "" then []
    else
      var lines := Lines(text);
      if lines[|lines| - 1] == "" then lines[..|lines| - 1] else lines
  }

  lemma SplitLinesAreLines(text: string)
    ensures AllFree(SplitLines(text), IsNewline)
  {
    SplitFree(text, IsNewline);
  }

  /** Every line of l, each followed by a newline. */
  function Terminated(l: seq<string>): string {
    if l == [] then "" else l[0] + "\n" + Terminated(l[1..])
  }

  lemma {:induction false} LinesOfTerminated(l: seq<string>)
    requires AllFree(l, IsNewline)
    ensures Lines(Terminated(l)) == l + [""]
  {
    if l == [] {
      assert l + [""] == [""];
    } else {
      LinesOfTerminated(l[1..]);
      SplitConcat(l[0], '\n', Terminated(l[1..]), IsNewline);
      SplitOfFree(l[0], IsNewline);
      assert [l[0]] + (l[1..] + [""]) == l + [""];
    }
  }

  lemma SplitLinesOfTerminated(l: seq<string>)
    requires AllFree(l, IsNewline)
    ensures SplitLines(Terminated(l)) == l
  {
    LinesOfTerminated(l);
  }

  /** The text with its last line ended. */
  function Closed(text: string): string {
    if text == "" || text[|text| - 1] == '\n' then text else text + "\n"
  }

  /** The lines determine the text up to a missing final newline. */
  lemma TextOfLines(text: string)
    ensures Terminated(SplitLines(text)) == Closed(text)
  {
    if text != "" {
      var t, c := text[..|text| - 1], text[|text| - 1];
      assert text == t + [c];
      SplitSnoc(t, c, IsNewline);
      if c == '\n' {
        assert SplitLines(text) == Lines(t);
        JoinLines(t);
        TerminatedIsJoin(Lines(t));
      } else {
        assert SplitLines(text) == Lines(text);
        JoinLines(text);
        TerminatedIsJoin(Lines(text));
      }
    }
  }

  lemma {:induction false} TerminatedIsJoin(l: seq<string>)
    requires l != []
    ensures Terminated(l) == Join(l, "\n") + "\n"
  {
    if |l| == 1 {
      assert Terminated(l[1..]) == "";
    } else {
      TerminatedIsJoin(l[1..]);
    }
  }

  // ---- resynchronisation -----------------------------------------------------

  predicate SameLine(was: seq<string>, now: seq<string>, a: int, b: int) {
    0 <= a < |was| && 0 <= b < |now| && was[a] == now[b]
  }

  /** The search order: by growing total distance d, then by growing old distance di. */
  function Search(was: seq<string>, now: seq<string>, i: nat, j: nat, d: nat, di: nat): (p: (nat, nat))
    requires i <= |was| && j <= |now| && di <= d + 1
    decreases |was| + |now| + 1 - d, d + 1 - di
  {
    if d > |was| - i + |now| - j then (|was|, |now|)
    else if di > d then Search(was, now, i, j, d + 1, 0)
    else if SameLine(was, now, i + di, j + d - di) then (i + di, j + d - di)
    else Search(was, now, i, j, d, di + 1)
  }

  function Resync(was: seq<string>, now: seq<string>, i: nat, j: nat): (nat, nat)
    requires i <= |was| && j <= |now|
  {
    Search(was, now, i, j, 1, 0)
  }

  method ResyncPoint(was: seq<string>, now: seq<string>, i: nat, j: nat) returns (nextI: nat, nextJ: nat)
    requires i <= |was| && j <= |now|
    ensures (nextI, nextJ) == Resync(was, now, i, j)
  {
    var maxD := (|was| - i) + (|now| - j);
    var d := 1;
    while d <= maxD
      invariant 1 <= d <= maxD + 1
      invariant Search(was, now, i, j, d, 0) == Resync(was, now, i, j)
    {
      var di := 0;
      while di <= d
        invariant 0 <= di <= d + 1
        invariant Search(was, now, i, j, d, di) == Resync(was, now, i, j)
      {
        var dj := d - di;
        var ni, nj := i + di, j + dj;
        if ni < |was| && nj < |now| && was[ni] == now[nj] {
          return ni, nj;
        }
        di := di + 1;
      }
      d := d + 1;
    }
    return |was|, |now|;
  }

  /** Whether (a, b) is met by the search before (d, di). */
  ghost predicate Before(i: nat, j: nat, a: int, b: int, d: nat, di: nat) {
    a - i + b - j < d || (a - i + b - j == d && a - i < di)
  }

  /** (ni, nj) is the match at least total distance, the smaller old index first. */
  ghost predicate Nearest(was: seq<string>, now: seq<string>, i: nat, j: nat, ni: nat, nj: nat) {
    && i <= ni && j <= nj && SameLine(was, now, ni, nj)
    && forall a, b :: i <= a && j <= b && SameLine(was, now, a, b) ==>
         ni + nj < a + b || (ni + nj == a + b && ni <= a)
  }

  ghost predicate NoMatch(was: seq<string>, now: seq<string>, i: nat, j: nat) {
    forall a, b :: i <= a && j <= b ==> !SameLine(was, now, a, b)
  }

  lemma {:induction false} SearchIsNearest(was: seq<string>, now: seq<string>, i: nat, j: nat, d: nat, di: nat)
    requires i <= |was| && j <= |now| && di <= d + 1
    requires forall a, b :: i <= a && j <= b && SameLine(was, now, a, b) ==> !Before(i, j, a, b, d, di)
    ensures var p := Search(was, now, i, j, d, di);
            if NoMatch(was, now, i, j) then p == (|was|, |now|) else Nearest(was, now, i, j, p.0, p.1)
    decreases |was| + |now| + 1 - d, d + 1 - di
  {
    if d > |was| - i + |now| - j {
    } else if di > d {
      SearchIsNearest(was, now, i, j, d + 1, 0);
    } else if !SameLine(was, now, i + di, j + d - di) {
      SearchIsNearest(was, now, i, j, d, di + 1);
    }
  }

  /** Resynchronisation finds the nearest match, or both ends when no match remains;
      in either case no line removed before it is added back before it. */
  lemma ResyncIsNearest(was: seq<string>, now: seq<string>, i: nat, j: nat)
    requires i <= |was| && j <= |now| && !SameLine(was, now, i, j)
    ensures var (ni, nj) := Resync(was, now, i, j);
            && i <= ni <= |was| && j <= nj <= |now|
            && (NoMatch(was, now, i, j) <==> (ni, nj) == (|was|, |now|))
            && (!NoMatch(was, now, i, j) ==> Nearest(was, now, i, j, ni, nj))
            && (forall a, b :: i <= a < ni && j <= b < nj ==> !SameLine(was, now, a, b))
  {
    SearchIsNearest(was, now, i, j, 1, 0);
  }

  /** What the diff loop needs of it: the cursors stay in range and move. */
  lemma ResyncAdvances(was: seq<string>, now: seq<string>, i: nat, j: nat)
    requires i <= |was| && j <= |now| && !SameLine(was, now, i, j)
    ensures var (ni, nj) := Resync(was, now, i, j);
            && i <= ni <= |was| && j <= nj <= |now|
            && ((ni, nj) == (|was|, |now|) || (SameLine(was, now, ni, nj) && (ni, nj) != (i, j)))
  {
    ResyncIsNearest(was, now, i, j);
  }

  // ---- the edit script -------------------------------------------------------

  function Tagged(tag: Tag, lines: seq<string>): (r: seq<Edit>)
    ensures |r| == |lines| && forall k :: 0 <= k < |r| ==> r[k] == Edit(tag, lines[k])
  {
    seq(|lines|, k requires 0 <= k < |lines| => Edit(tag, lines[k]))
  }

  /** The edits from cursors (i, j) to the ends of both texts. */
  function Script(was: seq<string>, now: seq<string>, i: nat, j: nat): seq<Edit>
    requires i <= |was| && j <= |now|
    decreases |was| - i + |now| - j
  {
    if i == |was| && j == |now| then []
    else if SameLine(was, now, i, j) then [Edit(Context, was[i])] + Script(was, now, i + 1, j + 1)
    else
      ResyncAdvances(was, now, i, j);
      var (ni, nj) := Resync(was, now, i, j);
      Tagged(Removed, was[i..ni]) + Tagged(Added, now[j..nj]) + Script(was, now, ni, nj)
  }

  function Side(script: seq<Edit>, drop: Tag): seq<string> {
    if script == [] then []
    else (if script[0].tag == drop then [] else [script[0].line]) + Side(script[1..], drop)
  }

  lemma {:induction false} SideConcat(a: seq<Edit>, b: seq<Edit>, drop: Tag)
    ensures Side(a + b, drop) == Side(a, drop) + Side(b, drop)
  {
    if a == [] {
      assert a + b == b;
    } else {
      SideConcat(a[1..], b, drop);
      Uncons(a, b);
      Assoc(if a[0].tag == drop then [] else [a[0].line], Side(a[1..], drop), Side(b, drop));
    }
  }

  lemma {:induction false} SideOfTagged(tag: Tag, lines: seq<string>, drop: Tag)
    ensures Side(Tagged(tag, lines), drop) == if tag == drop then [] else lines
  {
    if lines != [] {
      SideOfTagged(tag, lines[1..], drop);
      assert Tagged(tag, lines)[1..] == Tagged(tag, lines[1..]);
      assert lines == [lines[0]] + lines[1..];
    }
  }

  lemma BlockSides(gone: seq<string>, come: seq<string>, rest: seq<Edit>, drop: Tag)
    ensures var side := Side(Tagged(Removed, gone) + Tagged(Added, come) + rest, drop);
            && (drop == Added ==> side == gone + Side(rest, drop))
            && (drop == Removed ==> side == come + Side(rest, drop))
  {
    var r, a := Tagged(Removed, gone), Tagged(Added, come);
    SideConcat(r + a, rest, drop);
    SideConcat(r, a, drop);
    SideOfTagged(Removed, gone, drop);
    SideOfTagged(Added, come, drop);
    assert gone + [] == gone && [] + come == come;
  }

  /** Dropping the additions leaves the old lines, dropping the removals the new ones. */
  lemma {:induction false} ScriptSide(was: seq<string>, now: seq<string>, i: nat, j: nat, drop: Tag)
    requires i <= |was| && j <= |now| && drop != Context
    ensures Side(Script(was, now, i, j), drop) == if drop == Added then was[i..] else now[j..]
    decreases |was| - i + |now| - j
  {
    if i == |was| && j == |now| {
    } else if SameLine(was, now, i, j) {
      ScriptSide(was, now, i + 1, j + 1, drop);
      ContextSide(was, now, i, j, Script(was, now, i + 1, j + 1), drop);
    } else {
      ResyncAdvances(was, now, i, j);
      var (ni, nj) := Resync(was, now, i, j);
      ScriptSide(was, now, ni, nj, drop);
      BlockSide(was, now, i, j, ni, nj, Script(was, now, ni, nj), drop);
    }
  }

  lemma ContextSide(was: seq<string>, now: seq<string>, i: nat, j: nat, rest: seq<Edit>, drop: Tag)
    requires SameLine(was, now, i, j) && drop != Context
    requires Side(rest, drop) == if drop == Added then was[i + 1..] else now[j + 1..]
    ensures Side([Edit(Context, was[i])] + rest, drop) == if drop == Added then was[i..] else now[j..]
  {
    SideCons(Edit(Context, was[i]), rest, drop);
    if drop == Added {
      assert was[i..] == [was[i]] + was[i + 1..];
    } else {
      assert now[j..] == [now[j]] + now[j + 1..];
    }
  }

  lemma SideCons(e: Edit, rest: seq<Edit>, drop: Tag)
    ensures Side([e] + rest, drop) == (if e.tag == drop then [] else [e.line]) + Side(rest, drop)
  {
    Uncons([e], rest);
  }

  lemma BlockSide(was: seq<string>, now: seq<string>, i: nat, j: nat, ni: nat, nj: nat, rest: seq<Edit>, drop: Tag)
    requires i <= ni <= |was| && j <= nj <= |now| && drop != Context
    requires Side(rest, drop) == if drop == Added then was[ni..] else now[nj..]
    ensures Side(Tagged(Removed, was[i..ni]) + Tagged(Added, now[j..nj]) + rest, drop)
         == if drop == Added then was[i..] else now[j..]
  {
    BlockSides(was[i..ni], now[j..nj], rest, drop);
    assert was[i..] == was[i..ni] + was[ni..];
    assert now[j..] == now[j..nj] + now[nj..];
  }

  lemma ScriptIsCorrect(was: seq<string>, now: seq<string>)
    ensures Side(Script(was, now, 0, 0), Added) == was
    ensures Side(Script(was, now, 0, 0), Removed) == now
  {
    ScriptSide(was, now, 0, 0, Added);
    ScriptSide(was, now, 0, 0, Removed);
  }

  ghost predicate OnlyContext(script: seq<Edit>) {
    forall k :: 0 <= k < |script| ==> script[k].tag == Context
  }

  lemma {:induction false} OnlyContextSides(script: seq<Edit>)
    requires OnlyContext(script)
    ensures Side(script, Added) == Side(script, Removed)
  {
    if script != [] {
      OnlyContextSides(script[1..]);
    }
  }

  lemma {:induction false} SameTextScript(lines: seq<string>, i: nat)
    requires i <= |lines|
    ensures OnlyContext(Script(lines, lines, i, i))
    decreases |lines| - i
  {
    if i < |lines| {
      SameTextScript(lines, i + 1);
    }
  }

  /** The script shows a change exactly when the line lists differ. */
  lemma ScriptShowsChange(was: seq<string>, now: seq<string>)
    ensures OnlyContext(Script(was, now, 0, 0)) <==> was == now
  {
    ScriptIsCorrect(was, now);
    if OnlyContext(Script(was, now, 0, 0)) {
      OnlyContextSides(Script(was, now, 0, 0));
    }
    if was == now {
      SameTextScript(was, 0);
    }
  }

  /** Between a removal and an addition of the same line there is a context line. */
  ghost predicate NoChurn(script: seq<Edit>) {
    forall k, m ::
      (0 <= k < m < |script| && script[k].tag == Removed && script[m] == Edit(Added, script[k].line))
      ==> SeparatedByContext(script, k, m)
  }

  ghost predicate SeparatedByContext(script: seq<Edit>, k: nat, m: nat) {
    exists c :: k < c < m < |script| && script[c].tag == Context
  }

  lemma {:induction false} NoChangeBlockChurns(was: seq<string>, now: seq<string>, i: nat, j: nat)
    requires i <= |was| && j <= |now|
    ensures NoChurn(Script(was, now, i, j))
    decreases |was| - i + |now| - j
  {
    if i == |was| && j == |now| {
    } else if SameLine(was, now, i, j) {
      var rest := Script(was, now, i + 1, j + 1);
      NoChangeBlockChurns(was, now, i + 1, j + 1);
      NoChurnPrepend([Edit(Context, was[i])], rest);
    } else {
      ResyncIsNearest(was, now, i, j);
      var (ni, nj) := Resync(was, now, i, j);
      var rest := Script(was, now, ni, nj);
      NoChangeBlockChurns(was, now, ni, nj);
      var block := Tagged(Removed, was[i..ni]) + Tagged(Added, now[j..nj]);
      forall k, m | 0 <= k < m < |block| && block[k].tag == Removed && block[m].tag == Added
        ensures block[k].line != block[m].line
      {
        assert !SameLine(was, now, i + k, j + m - (ni - i));
      }
      NoChurnPrepend(block, rest);
    }
  }

  lemma NoChurnPrepend(block: seq<Edit>, rest: seq<Edit>)
    requires rest == [] || rest[0].tag == Context || OnlyContext(block)
    requires NoChurn(rest)
    requires forall k, m :: 0 <= k < m < |block| && block[k].tag == Removed && block[m].tag == Added ==>
               block[k].line != block[m].line
    ensures NoChurn(block + rest)
  {
    var s := block + rest;
    forall k, m | 0 <= k < m < |s| && s[k].tag == Removed && s[m] == Edit(Added, s[k].line)
      ensures SeparatedByContext(s, k, m)
    {
      if k >= |block| {
        assert SeparatedByContext(rest, k - |block|, m - |block|);
        var c :| k - |block| < c < m - |block| < |rest| && rest[c].tag == Context;
        assert s[c + |block|].tag == Context;
      } else if m >= |block| {
        assert s[|block|].tag == Context;
      }
    }
  }

  // ---- the text --------------------------------------------------------------

  function Mark(tag: Tag): char {
    match tag case Context => ' ' case Removed => '-' case Added => '+'
  }

  function RenderEdit(e: Edit): string { [Mark(e.tag)] + e.line + "\n" }

  function Render(script: seq<Edit>): string {
    if script == [] then "" else RenderEdit(script[0]) + Render(script[1..])
  }

  function DiffHeader(title: string): (h: string)
    ensures h != "" && TrimSpace(h) != ""
  {
    var h := "--- live: " + title + "\n+++ proposed: " + title + "\n";
    assert TrimLeft(h) == h;
    TrimRightKeepsFirst(h);
    h
  }

  lemma NonBlankPrefix(h: string, s: string)
    requires h != "" && !IsSpace(h[0])
    ensures TrimSpace(h + s) != ""
  {
    TrimRightKeepsFirst(h + s);
  }

  function UnifiedText(oldText: string, newText: string, title: string): string {
    if oldText == newText then ""
    else DiffHeader(title) + Render(Script(SplitLines(oldText), SplitLines(newText), 0, 0))
  }

  function AddText(proposed: string, title: string): string {
    if proposed == "" then "" else DiffHeader(title) + Render(Tagged(Added, SplitLines(proposed)))
  }

  lemma {:induction false} RenderConcat(a: seq<Edit>, b: seq<Edit>)
    ensures Render(a + b) == Render(a) + Render(b)
  {
    if a == [] {
      assert a + b == b;
    } else {
      RenderConcat(a[1..], b);
      Uncons(a, b);
      Assoc(RenderEdit(a[0]), Render(a[1..]), Render(b));
    }
  }

  lemma RenderSnoc(a: seq<Edit>, e: Edit)
    ensures Render(a + [e]) == Render(a) + RenderEdit(e)
  {
    RenderConcat(a, [e]);
    assert Render([e]) == RenderEdit(e) + Render([]);
  }

  lemma RenderBlock(b: string, removed: seq<Edit>, added: seq<Edit>, rest: seq<Edit>)
    ensures b + Render(removed + added + rest) == (b + Render(removed) + Render(added)) + Render(rest)
  {
    RenderConcat(removed + added, rest);
    RenderConcat(removed, added);
  }

  lemma ContextStep(b: string, was: seq<string>, now: seq<string>, i: nat, j: nat)
    requires SameLine(was, now, i, j)
    ensures b + Render(Script(was, now, i, j))
         == (b + " " + was[i] + "\n") + Render(Script(was, now, i + 1, j + 1))
  {
    var rest := Script(was, now, i + 1, j + 1);
    assert Script(was, now, i, j) == [Edit(Context, was[i])] + rest;
    RenderConcat([Edit(Context, was[i])], rest);
    RenderSnoc([], Edit(Context, was[i]));
    assert [] + [Edit(Context, was[i])] == [Edit(Context, was[i])];
  }

  lemma BlockStep(b: string, was: seq<string>, now: seq<string>, i: nat, j: nat, ni: nat, nj: nat)
    requires i <= |was| && j <= |now| && !SameLine(was, now, i, j) && (i < |was| || j < |now|)
    requires (ni, nj) == Resync(was, now, i, j)
    ensures i <= ni <= |was| && j <= nj <= |now|
    ensures b + Render(Script(was, now, i, j))
         == (b + Render(Tagged(Removed, was[i..ni])) + Render(Tagged(Added, now[j..nj]))) + Render(Script(was, now, ni, nj))
  {
    ResyncAdvances(was, now, i, j);
    RenderBlock(b, Tagged(Removed, was[i..ni]), Tagged(Added, now[j..nj]), Script(was, now, ni, nj));
  }

  /** Where the lines diverge: the removed run, then the added run, up to the resync point. */
  method WriteBlock(b: string, was: seq<string>, now: seq<string>, i: nat, j: nat)
    returns (out: string, nextI: nat, nextJ: nat)
    requires i <= |was| && j <= |now| && !SameLine(was, now, i, j) && (i < |was| || j < |now|)
    ensures i <= nextI <= |was| && j <= nextJ <= |now| && i + j < nextI + nextJ
    ensures b + Render(Script(was, now, i, j)) == out + Render(Script(was, now, nextI, nextJ))
  {
    nextI, nextJ := ResyncPoint(was, now, i, j);
    ResyncAdvances(was, now, i, j);
    var removed := WriteRun(b, '-', Removed, was, i, nextI);
    out := WriteRun(removed, '+', Added, now, j, nextJ);
    BlockStep(b, was, now, i, j, nextI, nextJ);
  }

  method UnifiedDiff(oldText: string, newText: string, title: string) returns (out: string)
    ensures out == UnifiedText(oldText, newText, title)
  {
    if oldText == newText {
      return "";
    }
    var was := SplitLines(oldText);
    var now := SplitLines(newText);
    var b := DiffHeader(title);
    var i, j := 0, 0;
    ghost var target := UnifiedText(oldText, newText, title);
    while i < |was| || j < |now|
      invariant 0 <= i <= |was| && 0 <= j <= |now|
      invariant b + Render(Script(was, now, i, j)) == target
      decreases |was| - i + |now| - j
    {
      if i < |was| && j < |now| && was[i] == now[j] {
        ContextStep(b, was, now, i, j);
        b := b + " " + was[i] + "\n";
        i, j := i + 1, j + 1;
      } else {
        b, i, j := WriteBlock(b, was, now, i, j);
      }
    }
    assert Render(Script(was, now, i, j)) == "" && b + "" == b;
    return b;
  }

  /** Appends lines[from..to], each behind its mark. */
  method WriteRun(b: string, mark: char, ghost tag: Tag, lines: seq<string>, from: nat, to: nat) returns (out: string)
    requires from <= to <= |lines| && mark == Mark(tag)
    ensures out == b + Render(Tagged(tag, lines[from..to]))
  {
    out := b;
    var k := from;
    while k < to
      invariant from <= k <= to
      invariant out == b + Render(Tagged(tag, lines[from..k]))
    {
      out := out + [mark] + lines[k] + "\n";
      RenderSnoc(Tagged(tag, lines[from..k]), Edit(tag, lines[k]));
      assert lines[from..k + 1] == lines[from..k] + [lines[k]];
      assert Tagged(tag, lines[from..k + 1]) == Tagged(tag, lines[from..k]) + [Edit(tag, lines[k])];
      k := k + 1;
    }
  }

  method RenderAddDiff(proposed: string, title: string) returns (out: string)
    ensures out == AddText(proposed, title)
  {
    if proposed == "" {
      return "";
    }
    var lines := SplitLines(proposed);
    out := WriteRun(DiffHeader(title), '+', Added, lines, 0, |lines|);
    assert lines[0..|lines|] == lines;
  }

  // ---- reading the text back -------------------------------------------------

  function TagOf(c: char): Tag { if c == '-' then Removed else if c == '+' then Added else Context }

  /** The edits a rendered body shows, read line by line. */
  function Decode(lines: seq<string>): seq<Edit> {
    if lines == [] then []
    else if lines[0] == "" then Decode(lines[1..])
    else [Edit(TagOf(lines[0][0]), lines[0][1..])] + Decode(lines[1..])
  }

  function Body(out: string, title: string): (b: string) {
    if |DiffHeader(title)| <= |out| then out[|DiffHeader(title)|..] else ""
  }

  ghost predicate PlainLines(script: seq<Edit>) {
    forall k :: 0 <= k < |script| ==> Free(script[k].line, IsNewline)
  }

  lemma {:induction false} DecodeRender(script: seq<Edit>)
    requires PlainLines(script)
    ensures Decode(SplitLines(Render(script))) == script
  {
    var lines := seq(|script|, k requires 0 <= k < |script| => [Mark(script[k].tag)] + script[k].line);
    RenderIsTerminated(script, lines);
    forall k | 0 <= k < |lines| ensures Free(lines[k], IsNewline) {
      assert lines[k][1..] == script[k].line;
      assert forall x :: 0 < x < |lines[k]| ==> lines[k][x] == script[k].line[x - 1];
    }
    SplitLinesOfTerminated(lines);
    DecodeLines(script, lines);
  }

  lemma {:induction false} RenderIsTerminated(script: seq<Edit>, lines: seq<string>)
    requires |lines| == |script|
    requires forall k :: 0 <= k < |script| ==> lines[k] == [Mark(script[k].tag)] + script[k].line
    ensures Render(script) == Terminated(lines)
  {
    if script != [] {
      RenderIsTerminated(script[1..], lines[1..]);
    }
  }

  lemma {:induction false} DecodeLines(script: seq<Edit>, lines: seq<string>)
    requires |lines| == |script|
    requires forall k :: 0 <= k < |script| ==> lines[k] == [Mark(script[k].tag)] + script[k].line
    ensures Decode(lines) == script
  {
    if script != [] {
      DecodeLines(script[1..], lines[1..]);
      assert lines[0][1..] == script[0].line;
      assert script == [script[0]] + script[1..];
    }
  }

  lemma {:induction false} ScriptIsPlain(was: seq<string>, now: seq<string>, i: nat, j: nat)
    requires i <= |was| && j <= |now| && AllFree(was, IsNewline) && AllFree(now, IsNewline)
    ensures PlainLines(Script(was, now, i, j))
    decreases |was| - i + |now| - j
  {
    if i == |was| && j == |now| {
    } else if SameLine(was, now, i, j) {
      ScriptIsPlain(was, now, i + 1, j + 1);
      PlainConcat([Edit(Context, was[i])], Script(was, now, i + 1, j + 1));
    } else {
      ResyncAdvances(was, now, i, j);
      var (ni, nj) := Resync(was, now, i, j);
      ScriptIsPlain(was, now, ni, nj);
      TaggedIsPlain(Removed, was, i, ni);
      TaggedIsPlain(Added, now, j, nj);
      PlainConcat(Tagged(Removed, was[i..ni]), Tagged(Added, now[j..nj]));
      PlainConcat(Tagged(Removed, was[i..ni]) + Tagged(Added, now[j..nj]), Script(was, now, ni, nj));
    }
  }

  lemma TaggedIsPlain(tag: Tag, lines: seq<string>, from: nat, to: nat)
    requires from <= to <= |lines| && AllFree(lines, IsNewline)
    ensures PlainLines(Tagged(tag, lines[from..to]))
  {
    assert forall k :: 0 <= k < to - from ==> lines[from..to][k] == lines[from + k];
  }

  lemma PlainConcat(a: seq<Edit>, b: seq<Edit>)
    requires PlainLines(a) && PlainLines(b)
    ensures PlainLines(a + b)
  {
  }

  /** The printed diff is a correct edit script for every pair of texts: read back line by
      line, it yields the old lines and the new lines; it is empty exactly for equal texts;
      and no block removes and re-adds a line. */
  lemma DiffIsCorrect(oldText: string, newText: string, title: string)
    ensures UnifiedText(oldText, newText, title) == "" <==> oldText == newText
    ensures oldText != newText ==>
              var shown := Decode(SplitLines(Body(UnifiedText(oldText, newText, title), title)));
              && Side(shown, Added) == SplitLines(oldText)
              && Side(shown, Removed) == SplitLines(newText)
              && NoChurn(shown)
  {
    if oldText != newText {
      var o, n := SplitLines(oldText), SplitLines(newText);
      var script := Script(o, n, 0, 0);
      SplitLinesAreLines(oldText);
      SplitLinesAreLines(newText);
      ScriptIsPlain(o, n, 0, 0);
      assert Body(UnifiedText(oldText, newText, title), title) == Render(script);
      DecodeRender(script);
      ScriptIsCorrect(o, n);
      NoChangeBlockChurns(o, n, 0, 0);
    }
  }

  /** The lines that do not start with the mark, without their own. */
  function WithoutMark(lines: seq<string>, mark: char): seq<string> {
    if lines == [] then []
    else (if lines[0] == "" || lines[0][0] == mark then [] else [lines[0][1..]]) + WithoutMark(lines[1..], mark)
  }

  /** Dropping the lines marked '+' or '-' drops the additions or the removals. */
  lemma {:induction false} MarksAreTags(script: seq<Edit>, lines: seq<string>)
    requires |lines| == |script| && forall k :: 0 <= k < |script| ==> lines[k] == [Mark(script[k].tag)] + script[k].line
    ensures WithoutMark(lines, '+') == Side(script, Added) && WithoutMark(lines, '-') == Side(script, Removed)
  {
    if script != [] {
      assert lines[0][1..] == script[0].line;
      MarksAreTags(script[1..], lines[1..]);
    }
  }

  function MarkedLines(script: seq<Edit>): (lines: seq<string>)
    ensures |lines| == |script| && forall k :: 0 <= k < |script| ==> lines[k] == [Mark(script[k].tag)] + script[k].line
  {
    seq(|script|, k requires 0 <= k < |script| => [Mark(script[k].tag)] + script[k].line)
  }

  /** The text itself: a header naming the object twice, then lines marked ' ', '-' or '+'. Without
      the lines marked '+' it is the old text, without those marked '-' the new one. */
  lemma DiffText(oldText: string, newText: string, title: string) returns (lines: seq<string>)
    requires oldText != newText
    ensures UnifiedText(oldText, newText, title)
         == "--- live: " + title + "\n+++ proposed: " + title + "\n" + Terminated(lines)
    ensures forall k :: 0 <= k < |lines| ==> lines[k] != "" && (lines[k][0] == ' ' || lines[k][0] == '-' || lines[k][0] == '+')
    ensures WithoutMark(lines, '+') == SplitLines(oldText) && WithoutMark(lines, '-') == SplitLines(newText)
  {
    var o, n := SplitLines(oldText), SplitLines(newText);
    var script := Script(o, n, 0, 0);
    lines := MarkedLines(script);
    RenderIsTerminated(script, lines);
    MarksAreTags(script, lines);
    ScriptIsCorrect(o, n);
  }

  /** For a new object every line is marked '+'. */
  lemma AddTextIs(proposed: string, title: string) returns (lines: seq<string>)
    requires proposed != ""
    ensures AddText(proposed, title) == "--- live: " + title + "\n+++ proposed: " + title + "\n" + Terminated(lines)
    ensures |lines| == |SplitLines(proposed)|
    ensures forall k :: 0 <= k < |lines| ==> lines[k] == "+" + SplitLines(proposed)[k]
  {
    var script := Tagged(Added, SplitLines(proposed));
    lines := MarkedLines(script);
    RenderIsTerminated(script, lines);
  }

  /** A new object's diff reads back as all its lines, and nothing live. */
  lemma AddIsCorrect(proposed: string, title: string)
    ensures var shown := Decode(SplitLines(Body(AddText(proposed, title), title)));
            Side(shown, Added) == [] && Side(shown, Removed) == SplitLines(proposed)
  {
    var lines := SplitLines(proposed);
    var script := Tagged(Added, lines);
    SplitLinesAreLines(proposed);
    assert lines[0..|lines|] == lines;
    TaggedIsPlain(Added, lines, 0, |lines|);
    DecodeRender(script);
    SideOfTagged(Added, lines, Added);
    SideOfTagged(Added, lines, Removed);
    assert Body(AddText(proposed, title), title) == Render(script);
  }

  /** For all texts: what is shown is pure context if and only if the texts are the same once
      their last lines are ended. */
  lemma DiffShowsChangeIff(oldText: string, newText: string, title: string)
    ensures OnlyContext(Script(SplitLines(oldText), SplitLines(newText), 0, 0)) <==> Closed(oldText) == Closed(newText)
    ensures oldText != newText ==>
              var shown := Decode(SplitLines(Body(UnifiedText(oldText, newText, title), title)));
              OnlyContext(shown) <==> Closed(oldText) == Closed(newText)
  {
    var o, n := SplitLines(oldText), SplitLines(newText);
    TextOfLines(oldText);
    TextOfLines(newText);
    SplitLinesAreLines(oldText);
    SplitLinesAreLines(newText);
    SplitLinesOfTerminated(o);
    SplitLinesOfTerminated(n);
    ScriptShowsChange(o, n);
    ScriptIsPlain(o, n, 0, 0);
    DecodeRender(Script(o, n, 0, 0));
    if oldText != newText {
      assert Body(UnifiedText(oldText, newText, title), title) == Render(Script(o, n, 0, 0));
    }
  }

  /** So on newline-terminated texts a non-empty diff always shows a removal or an addition. */
  lemma NonEmptyDiffShowsChange(oldText: string, newText: string)
    requires Closed(oldText) == oldText && Closed(newText) == newText
    ensures OnlyContext(Script(SplitLines(oldText), SplitLines(newText), 0, 0)) <==> oldText == newText
  {
    DiffShowsChangeIff(oldText, newText, "");
  }

  /** And a text whose last line is not ended gets a non-empty diff against its ended form that
      shows none. */
  lemma MissingNewlineShowsNothing(text: string, title: string)
    requires Closed(text) != text
    ensures UnifiedText(text, Closed(text), title) != ""
    ensures OnlyContext(Decode(SplitLines(Body(UnifiedText(text, Closed(text), title), title))))
  {
    DiffIsCorrect(text, Closed(text), title);
    DiffShowsChangeIff(text, Closed(text), title);
  }
}
