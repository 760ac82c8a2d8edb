/** Completion of the last filter term (internal/view/filtercomplete.go). The completer
    reads the buffer with its own code; the theorems say that what it offers is what the
    parser then understands. */
module FilterComplete {
  import opened Text
  import opened Rows
  import opened Filter

  // ---- where the completable value starts ------------------------------------

  datatype Halves = Halves(front: string, back: string)

  /** Everything up to and including the last space, and the trailing token. */
  function SplitLastToken(s: string): (r: Halves)
    ensures r.front + r.back == s && ' ' !in r.back && EndsInSpace(r.front)
  {
    match CutLast(s, ' ')
    case Whole => Halves("", s)
    case Parts(a, b) => Halves(a + [' '], b)
  }

  predicate EndsInSpace(head: string) { head == "" || head[|head| - 1] == ' ' }

  /** The column prefix of a token's body, when it names a column. */
  function ColumnOf(env: Env, body: string): (col: Option<string>)
    ensures body == Affix(col) + ScopeOf(env, body).value
    ensures col.Some? ==> ':' !in col.value && ResolveScope(env, col.value) == Some(ScopeOf(env, body).scope)
    ensures col.None? ==> ScopeOf(env, body) == Scoped(AnyField, body)
  {
    match Cut(body, ':')
    case Whole => None
    case Parts(col, val) => if ResolveScope(env, col).Some? then Some(col) else None
  }

  /** An alternative cut behind a repeated prefix naming the term's own column. */
  function CutRepeated(env: Env, alt: string, scope: Scope): (r: Halves)
    ensures r.front + r.back == alt
  {
    match Cut(alt, ':')
    case Whole => Halves("", alt)
    case Parts(col, val) =>
      if ResolveScope(env, col) == Some(scope) then Halves(col + [':'], val) else Halves("", alt)
  }

  /** A value cut before the part to complete: its last alternative. */
  function LastAlternative(env: Env, rest: string, scope: Scope): (r: Halves)
    ensures r.front + r.back == rest
  {
    match CutLast(rest, '|')
    case Whole => Halves("", rest)
    case Parts(a, alt) =>
      var cut := CutRepeated(env, alt, scope);
      Assoc(a + ['|'], cut.front, cut.back);
      Halves(a + ['|'] + cut.front, cut.back)
  }

  datatype Point = Point(head: string, invert: bool, col: Option<string>, scope: Scope, kept: string, value: string)

  /** What is put back in front of a chosen candidate, after the head. */
  function Rebuild(p: Point): string { TokenOf(p.invert, p.col, p.kept) }

  function Prefix(p: Point): string { p.head + Rebuild(p) }

  lemma BodyNames(env: Env, body: string)
    ensures Names(env, ColumnOf(env, body), ScopeOf(env, body).scope, ScopeOf(env, body).value)
  {
  }

  /** The point's pieces are what the parser's rules make of them. */
  ghost predicate Reads(env: Env, p: Point) {
    && Names(env, p.col, p.scope, p.kept + p.value)
    && Halves(p.kept, p.value) == LastAlternative(env, p.kept + p.value, p.scope)
  }

  /** The completion point of a token whose body, behind the '!', is body. */
  function PointAt(env: Env, head: string, invert: bool, body: string): (p: Point)
    ensures p.head == head && p.invert == invert
    ensures body == Affix(p.col) + (p.kept + p.value)
    ensures p.kept + p.value == ScopeOf(env, body).value
    ensures Reads(env, p)
  {
    var sv := ScopeOf(env, body);
    var alt := LastAlternative(env, sv.value, sv.scope);
    BodyNames(env, body);
    Point(head, invert, ColumnOf(env, body), sv.scope, alt.front, alt.back)
  }

  function Bang(invert: bool): string { if invert then "!" else "" }

  /** The token last is spelled by the point's pieces. */
  ghost predicate Spells(last: string, p: Point) {
    && last == Bang(p.invert) + (Affix(p.col) + (p.kept + p.value))
    && last != "" && (p.invert || last[0] != '!')
    && !HasPrefix(p.kept + p.value, "~")
  }

  function PointIn(env: Env, head: string, last: string): (r: Option<Point>)
    ensures r.Some? ==> r.value.head == head && Spells(last, r.value) && Reads(env, r.value)
  {
    if last == "" then None
    else
      var invert := last[0] == '!';
      var body := if invert then last[1..] else last;
      assert last == Bang(invert) + body;
      var p := PointAt(env, head, invert, body);
      if HasPrefix(p.kept + p.value, "~") then None else Some(p)
  }

  /** Where the buffer can be completed; None for an empty last token or a regex. */
  function CompletionPoint(env: Env, buf: string): (r: Option<Point>)
    ensures r.Some? ==> EndsInSpace(r.value.head) && r.value.head == SplitLastToken(buf).front
    ensures r.Some? ==> Spells(SplitLastToken(buf).back, r.value) && Reads(env, r.value)
  {
    PointIn(env, SplitLastToken(buf).front, SplitLastToken(buf).back)
  }

  // ---- candidates ------------------------------------------------------------

  /** The value a row contributes at a scope. */
  function CandidateOf(r: Row, scope: Scope): Option<string> {
    match scope
    case Namespace => Some(r.namespace)
    case CellAt(i) => if i < |r.cells| then Some(r.cells[i].text) else None
    case _ => Some(r.name)
  }

  ghost predicate Contributed(rows: seq<Row>, scope: Scope, c: string) {
    exists k :: 0 <= k < |rows| && CandidateOf(rows[k], scope) == Some(c)
  }

  method CompletionValues(rows: seq<Row>, scope: Scope) returns (out: seq<string>)
    ensures forall c :: c in out <==> Contributed(rows, scope, c)
    ensures scope.CellAt? || |out| == |rows|
  {
    out := [];
    for i := 0 to |rows|
      invariant forall c :: c in out <==> Contributed(rows[..i], scope, c)
      invariant scope.CellAt? || |out| == i
    {
      ghost var was := out;
      match scope {
        case Namespace => out := out + [rows[i].namespace];
        case CellAt(k) =>
          if k < |rows[i].cells| {
            out := out + [rows[i].cells[k].text];
          }
        case _ => out := out + [rows[i].name];
      }
      forall c ensures c in out <==> Contributed(rows[..i + 1], scope, c) {
        ContributedSnoc(rows, i, scope, c);
        assert c in was <==> Contributed(rows[..i], scope, c);
      }
    }
    assert rows[..|rows|] == rows;
  }

  lemma ContributedSnoc(rows: seq<Row>, i: nat, scope: Scope, c: string)
    requires i < |rows|
    ensures Contributed(rows[..i + 1], scope, c) <==>
            Contributed(rows[..i], scope, c) || CandidateOf(rows[i], scope) == Some(c)
  {
    var a, b := rows[..i], rows[..i + 1];
    if Contributed(a, scope, c) {
      var k :| 0 <= k < |a| && CandidateOf(a[k], scope) == Some(c);
      assert b[k] == a[k];
    }
    assert b[i] == rows[i];
    if Contributed(b, scope, c) {
      var k :| 0 <= k < |b| && CandidateOf(b[k], scope) == Some(c);
      assert k < i ==> a[k] == b[k];
    }
  }

  predicate Extends(env: Env, c: string, value: string) {
    c != "" && HasPrefix(Lower(env, c), Lower(env, value))
  }

  ghost predicate NoRepeats(out: seq<string>) {
    forall i, j :: 0 <= i < j < |out| ==> out[i] != out[j]
  }

  /** The position where a candidate is first seen. */
  function FirstSeen(cands: seq<string>, c: string): (i: nat)
    ensures i <= |cands| && c !in cands[..i] && (i < |cands| ==> cands[i] == c)
  {
    if cands == [] || cands[0] == c then 0 else 1 + FirstSeen(cands[1..], c)
  }

  ghost predicate InFirstSeenOrder(cands: seq<string>, out: seq<string>) {
    forall i, j :: 0 <= i < j < |out| ==> FirstSeen(cands, out[i]) < FirstSeen(cands, out[j])
  }

  lemma {:induction false} FirstSeenAt(cands: seq<string>, n: nat)
    requires n < |cands|
    ensures FirstSeen(cands, cands[n]) <= n
    ensures cands[n] !in cands[..n] ==> FirstSeen(cands, cands[n]) == n
  {
    if n > 0 {
      FirstSeenAt(cands[1..], n - 1);
      assert cands[..n] == [cands[0]] + cands[1..][..n - 1];
    }
  }

  /** prefixMatches: the distinct candidates extending value, in first-seen order. */
  method PrefixMatches(env: Env, cands: seq<string>, value: string) returns (out: seq<string>)
    ensures forall c :: c in out <==> c in cands && Extends(env, c, value)
    ensures NoRepeats(out) && InFirstSeenOrder(cands, out)
  {
    out := [];
    var low := Lower(env, value);
    var seen: set<string> := {};
    for n := 0 to |cands|
      invariant forall c :: c in seen <==> c in out
      invariant forall c :: c in out <==> c in cands[..n] && Extends(env, c, value)
      invariant InFirstSeenOrder(cands, out)
    {
      var c := cands[n];
      assert cands[..n + 1] == cands[..n] + [c];
      FirstSeenAt(cands, n);
      if c == "" || c in seen {
        continue;
      }
      if HasPrefix(Lower(env, c), low) {
        seen := seen + {c};
        OrderSnoc(cands, n, out);
        out := out + [c];
      }
    }
    assert cands[..|cands|] == cands;
  }

  lemma OrderSnoc(cands: seq<string>, n: nat, out: seq<string>)
    requires n < |cands| && InFirstSeenOrder(cands, out)
    requires (forall x :: x in out ==> x in cands[..n]) && cands[n] !in cands[..n]
    ensures InFirstSeenOrder(cands, out + [cands[n]])
  {
    var more := out + [cands[n]];
    FirstSeenAt(cands, n);
    forall i, j | 0 <= i < j < |more| ensures FirstSeen(cands, more[i]) < FirstSeen(cands, more[j]) {
      if j == |out| {
        assert more[i] == out[i] && out[i] in cands[..n];
        var k :| 0 <= k < n && cands[..n][k] == out[i];
        FirstSeenAt(cands, k);
      }
    }
  }

  /** A candidate the completer offers at p. */
  ghost predicate Offered(env: Env, rows: seq<Row>, p: Point, c: string) {
    Contributed(rows, p.scope, c) && Extends(env, c, p.value)
  }

  lemma Rebuilt(p: Point, c: string)
    ensures Rebuild(p) + c == Bang(p.invert) + (Affix(p.col) + (p.kept + c))
    ensures Prefix(p) + c == p.head + (Rebuild(p) + c)
  {
    Assoc(Bang(p.invert), Affix(p.col) + p.kept, c);
    Assoc(Affix(p.col), p.kept, c);
    Assoc(p.head, Rebuild(p), c);
  }

  /** Whatever can be completed: the prefix and the value are the typed buffer. */
  lemma PrefixRestoresBuffer(env: Env, buf: string)
    requires CompletionPoint(env, buf).Some?
    ensures Prefix(CompletionPoint(env, buf).value) + CompletionPoint(env, buf).value.value == buf
  {
    Rebuilt(CompletionPoint(env, buf).value, CompletionPoint(env, buf).value.value);
  }

  /** The step of filterMatches that takes "!" and "col:" off the token. */
  method CutAffixes(env: Env, last: string) returns (rebuild: string, scope: Scope, rest: string)
    requires last != ""
    ensures var body := if last[0] == '!' then last[1..] else last;
      ScopeOf(env, body) == Scoped(scope, rest) && rebuild == Bang(last[0] == '!') + Affix(ColumnOf(env, body))
  {
    rebuild, rest := "", last;
    if last[0] == '!' {
      rebuild, rest := "!", last[1..];
    }
    var affix;
    affix, scope, rest := CutColumn(env, rest);
    rebuild := rebuild + affix;
  }

  method CutColumn(env: Env, body: string) returns (affix: string, scope: Scope, rest: string)
    ensures ScopeOf(env, body) == Scoped(scope, rest) && affix == Affix(ColumnOf(env, body))
  {
    affix, scope, rest := "", AnyField, body;
    var cut := Cut(body, ':');
    if cut.Parts? {
      var s := ResolveScope(env, cut.before);
      if s.Some? {
        affix, scope, rest := cut.before + ":", s.value, cut.after;
      }
    }
  }

  /** The step of filterMatches that folds earlier alternatives into the prefix. */
  method CutLastAlternative(env: Env, value: string, scope: Scope) returns (kept: string, rest: string)
    ensures Halves(kept, rest) == LastAlternative(env, value, scope)
  {
    kept, rest := "", value;
    var bar := CutLast(value, '|');
    if bar.Parts? {
      var pre, after := SkipRepeated(env, bar.after, scope);
      kept, rest := bar.before + ['|'] + pre, after;
    }
  }

  /** The part of that step for an alternative repeating the column. */
  method SkipRepeated(env: Env, alt: string, scope: Scope) returns (pre: string, rest: string)
    ensures Halves(pre, rest) == CutRepeated(env, alt, scope)
  {
    pre, rest := "", alt;
    var cut := Cut(alt, ':');
    if cut.Parts? && ResolveScope(env, cut.before) == Some(scope) {
      pre, rest := cut.before + [':'], cut.after;
    }
  }

  /** The position filterMatches works out, step by step. */
  method FindPoint(env: Env, buf: string) returns (r: Option<(string, string, Scope)>)
    ensures var p := CompletionPoint(env, buf);
      if p.None? then r.None? else r == Some((Prefix(p.value), p.value.value, p.value.scope))
  {
    var split := SplitLastToken(buf);
    if split.back == "" {
      return None;
    }
    var rebuild, scope, rest := CutAffixes(env, split.back);
    if HasPrefix(rest, "~") {
      return None;
    }
    var kept, value := CutLastAlternative(env, rest, scope);
    ghost var p := CompletionPoint(env, buf).value;
    Assoc(Bang(p.invert), Affix(p.col), p.kept);
    assert rebuild + kept == Rebuild(p);
    return Some((split.front + (rebuild + kept), value, scope));
  }

  /** filterMatches: when anything is offered, the prefix and the value are the buffer. */
  method FilterMatches(env: Env, buf: string, rows: seq<Row>)
    returns (prefix: string, value: string, matches: seq<string>)
    ensures var p := CompletionPoint(env, buf);
      if p.None? then prefix == "" && value == "" && matches == []
      else
        && prefix == Prefix(p.value) && value == p.value.value
        && forall c :: c in matches <==> Offered(env, rows, p.value, c)
    ensures matches != [] ==> prefix + value == buf
    ensures NoRepeats(matches)
  {
    var found := FindPoint(env, buf);
    if found.None? {
      return "", "", [];
    }
    var values := CompletionValues(rows, found.value.2);
    matches := PrefixMatches(env, values, found.value.1);
    prefix, value := found.value.0, found.value.1;
    PrefixRestoresBuffer(env, buf);
  }

  // ---- when there is something to complete, and what ------------------------------------

  /** There is nothing to complete exactly for an empty last token and for a regex. */
  lemma NothingToCompleteIff(env: Env, buf: string)
    ensures var last := SplitLastToken(buf).back;
      CompletionPoint(env, buf).None? <==>
        last == "" || HasPrefix(ScopeOf(env, if last[0] == '!' then last[1..] else last).value, "~")
  {
  }

  lemma LastTokenIs(head: string, tok: string)
    requires EndsInSpace(head) && ' ' !in tok
    ensures SplitLastToken(head + tok) == Halves(head, tok)
  {
    if head == "" {
      assert head + tok == tok;
    } else {
      var h := head[..|head| - 1];
      assert head == h + [' '];
      CutLastIs(h, ' ', tok);
    }
  }

  lemma ColumnIs(env: Env, col: Option<string>, scope: Scope, v: string)
    requires Names(env, col, scope, v)
    ensures ScopeOf(env, Affix(col) + v) == Scoped(scope, v) && ColumnOf(env, Affix(col) + v) == col
  {
    ScopeReads(env, col, scope, v);
    if col.Some? {
      assert Affix(col) + v == col.value + [':'] + v;
      CutIs(col.value, ':', v);
    } else {
      assert Affix(col) + v == v;
    }
  }

  /** A buffer written from its pieces is completed at exactly those: the head, the inversion and
      the column as they are, and the last alternative of the value. */
  lemma CompletesItsPieces(env: Env, head: string, invert: bool, col: Option<string>, scope: Scope, v: string)
    requires EndsInSpace(head) && ' ' !in TokenOf(invert, col, v) && TokenOf(invert, col, v) != ""
    requires Names(env, col, scope, v) && (invert || NoBang(Affix(col) + v)) && !HasPrefix(v, "~")
    ensures var alt := LastAlternative(env, v, scope);
      CompletionPoint(env, head + TokenOf(invert, col, v)) == Some(Point(head, invert, col, scope, alt.front, alt.back))
  {
    var tok, body := TokenOf(invert, col, v), Affix(col) + v;
    LastTokenIs(head, tok);
    ColumnIs(env, col, scope, v);
    if invert {
      assert tok[0] == '!' && tok[1..] == body;
    } else {
      assert tok == body;
    }
  }

  /** The part of a value that is completed: all of it without a '|', or what is behind the last
      one, or what is behind a column repeated there. */
  lemma WholeIsCompleted(env: Env, scope: Scope, w: string)
    requires '|' !in w
    ensures LastAlternative(env, w, scope) == Halves("", w)
  {
  }

  lemma LastIsCompleted(env: Env, a: string, scope: Scope, w: string)
    requires '|' !in w && ':' !in w
    ensures LastAlternative(env, a + "|" + w, scope) == Halves(a + "|", w)
  {
    CutLastIs(a, '|', w);
    assert a + ['|'] + "" == a + "|";
  }

  lemma RepeatedIsCompleted(env: Env, a: string, col: string, scope: Scope, w: string)
    requires '|' !in w && '|' !in col && ':' !in col && Denotes(env, col, scope) && scope != AnyField
    ensures LastAlternative(env, a + "|" + (col + ":" + w), scope) == Halves(a + "|" + (col + ":"), w)
  {
    CutLastIs(a, '|', col + ":" + w);
    ResolvesAsDenoted(env, col, scope);
    CutIs(col, ':', w);
  }

  /** c is a non-empty value that some row has where the scope looks - its name, unless the scope
      is the namespace or a column - and v is a prefix of it up to case. */
  ghost predicate Completes(env: Env, rows: seq<Row>, scope: Scope, v: string, c: string) {
    && c != "" && |v| <= |c| && Lower(env, c)[..|v|] == Lower(env, v)
    && exists k :: 0 <= k < |rows| &&
         (match scope
          case Namespace => rows[k].namespace == c
          case CellAt(i) => i < |rows[k].cells| && rows[k].cells[i].text == c
          case Name => rows[k].name == c
          case AnyField => rows[k].name == c)
  }

  lemma OfferedCompletes(env: Env, rows: seq<Row>, p: Point, c: string)
    ensures Offered(env, rows, p, c) <==> Completes(env, rows, p.scope, p.value, c)
  {
    if Offered(env, rows, p, c) {
      var k :| 0 <= k < |rows| && CandidateOf(rows[k], p.scope) == Some(c);
    }
    if Completes(env, rows, p.scope, p.value, c) {
      var k :| 0 <= k < |rows| &&
         (match p.scope
          case Namespace => rows[k].namespace == c
          case CellAt(i) => i < |rows[k].cells| && rows[k].cells[i].text == c
          case Name => rows[k].name == c
          case AnyField => rows[k].name == c);
      assert CandidateOf(rows[k], p.scope) == Some(c);
    }
  }

  lemma ColumnPoint(env: Env, head: string, invert: bool, col: string, scope: Scope, w: string)
    requires EndsInSpace(head) && Typed(invert, col) && Denotes(env, col, scope) && scope != AnyField
    requires ' ' !in w && '|' !in w && ':' !in w && !HasPrefix(w, "~")
    ensures CompletionPoint(env, head + TokenOf(invert, Some(col), w)) == Some(Point(head, invert, Some(col), scope, "", w))
  {
    ResolvesAsDenoted(env, col, scope);
    NoSpaceInToken(invert, col, w);
    WholeIsCompleted(env, scope, w);
    CompletesItsPieces(env, head, invert, Some(col), scope, w);
  }

  /** "head col:w", inverted or not: the prefix is everything up to the value, and exactly the
      values of that column that extend w are offered. */
  lemma ColumnIsCompleted(env: Env, rows: seq<Row>, head: string, invert: bool, col: string, scope: Scope, w: string, c: string)
    requires EndsInSpace(head) && Typed(invert, col) && Denotes(env, col, scope) && scope != AnyField
    requires ' ' !in w && '|' !in w && ':' !in w && !HasPrefix(w, "~")
    ensures var p := Point(head, invert, Some(col), scope, "", w);
      && CompletionPoint(env, head + ((if invert then "!" else "") + (col + ":" + w))) == Some(p)
      && Prefix(p) == head + ((if invert then "!" else "") + (col + ":"))
      && (Offered(env, rows, p, c) <==> Completes(env, rows, scope, w, c))
  {
    ColumnPoint(env, head, invert, col, scope, w);
    ColumnPrefix(head, invert, col, scope, w);
    OfferedCompletes(env, rows, Point(head, invert, Some(col), scope, "", w), c);
  }

  lemma ColumnPrefix(head: string, invert: bool, col: string, scope: Scope, w: string)
    ensures Prefix(Point(head, invert, Some(col), scope, "", w)) == head + ((if invert then "!" else "") + (col + ":"))
  {
    assert col + ":" + "" == col + ":";
  }

  lemma NoSpaceInToken(invert: bool, col: string, w: string)
    requires Free(col, IsSpace) && ' ' !in w
    ensures ' ' !in TokenOf(invert, Some(col), w)
  {
    assert ' ' !in col by {
      assert forall k :: 0 <= k < |col| ==> !IsSpace(col[k]);
    }
  }

  /** "head w" without a column: the names of the rows that extend w are offered. */
  lemma NameIsCompleted(env: Env, rows: seq<Row>, head: string, invert: bool, w: string, c: string)
    requires EndsInSpace(head) && ' ' !in w && '|' !in w && ':' !in w && !HasPrefix(w, "~")
    requires if invert then true else w != "" && w[0] != '!'
    ensures var p := Point(head, invert, None, AnyField, "", w);
      && CompletionPoint(env, head + ((if invert then "!" else "") + w)) == Some(p)
      && Prefix(p) == head + (if invert then "!" else "")
      && (Offered(env, rows, p, c) <==> Completes(env, rows, AnyField, w, c))
  {
    BarePoint(env, head, invert, w);
    assert "" + ("" + "") == "" && "!" + ("" + "") == "!";
    OfferedCompletes(env, rows, Point(head, invert, None, AnyField, "", w), c);
  }

  lemma BarePoint(env: Env, head: string, invert: bool, w: string)
    requires EndsInSpace(head) && ' ' !in w && '|' !in w && ':' !in w && !HasPrefix(w, "~")
    requires if invert then true else w != "" && w[0] != '!'
    ensures CompletionPoint(env, head + ((if invert then "!" else "") + w)) == Some(Point(head, invert, None, AnyField, "", w))
  {
    assert "" + w == w;
    WholeIsCompleted(env, AnyField, w);
    CompletesItsPieces(env, head, invert, None, AnyField, w);
  }

  // ---- a chosen candidate is parsed as it was meant --------------------------

  /** A candidate without characters the language gives a meaning to. */
  ghost predicate Choosable(c: string) {
    c != "" && Free(c, IsSpace) && '|' !in c && ':' !in c && c[0] != '~'
  }

  /** Only '!' is '!' after case mapping. */
  ghost predicate BangIsItself(env: Env) { forall x :: env.lower(x) == env.lower('!') ==> x == '!' }

  lemma CutOfAppend(a: string, b: string)
    requires ':' in a
    ensures Cut(a + b, ':').Parts? && Cut(a + b, ':').before == Cut(a, ':').before
  {
    var x, y := Cut(a, ':').before, Cut(a, ':').after;
    Assoc(x + [':'], y, b);
    CutIs(x, ':', y + b);
  }

  /** Without a column prefix, the rebuilt value still has none. */
  lemma StaysUnscoped(env: Env, kept: string, value: string, c: string)
    requires ScopeOf(env, kept + value) == Scoped(AnyField, kept + value) && ':' !in c
    ensures ScopeOf(env, kept + c) == Scoped(AnyField, kept + c)
  {
    if ':' in kept {
      CutOfAppend(kept, value);
      CutOfAppend(kept, c);
    }
  }

  lemma {:induction false} CleanedLast(env: Env, parts: seq<string>, last: string, scope: Scope)
    ensures Cleaned(env, parts + [last], scope) == Cleaned(env, parts, scope) +
            (var p := StripRepeatedScope(env, last, scope); if p == "" then [] else [Lower(env, p)])
  {
    CleanedAppend(env, parts, [last], scope);
    assert [last][1..] == [];
  }

  /** Behind its repeated prefix, if any, a candidate is an alternative on its own. */
  lemma RepeatedStrips(env: Env, alt: string, scope: Scope, c: string)
    requires ':' !in c && '|' !in alt
    ensures StripRepeatedScope(env, CutRepeated(env, alt, scope).front + c, scope) == c
    ensures '|' !in CutRepeated(env, alt, scope).front
  {
    var pre := CutRepeated(env, alt, scope).front;
    assert forall k :: 0 <= k < |pre| ==> pre[k] == alt[k];
    if pre != "" {
      CutIs(Cut(alt, ':').before, ':', c);
    } else {
      assert pre + c == c;
    }
  }

  /** The needles of a value whose last alternative is known. */
  lemma LastNeedle(env: Env, a: string, last: string, scope: Scope)
    requires '|' !in last && StripRepeatedScope(env, last, scope) != ""
    ensures Lower(env, StripRepeatedScope(env, last, scope)) in Alternatives(env, a + ['|'] + last, scope)
  {
    var v := a + ['|'] + last;
    assert v[|a|] == '|';
    SplitConcat(a, '|', last, IsBar);
    SplitOfFree(last, IsBar);
    CleanedLast(env, SplitBy(a, IsBar), last, scope);
  }

  lemma NeedleAfterBar(env: Env, a: string, alt: string, scope: Scope, c: string)
    requires c != "" && '|' !in c && ':' !in c && '|' !in alt
    ensures Lower(env, c) in Alternatives(env, (a + ['|'] + CutRepeated(env, alt, scope).front) + c, scope)
  {
    var pre := CutRepeated(env, alt, scope).front;
    RepeatedStrips(env, alt, scope, c);
    LastNeedle(env, a, pre + c, scope);
    Assoc(a + ['|'], pre, c);
  }

  lemma NeedleAlone(env: Env, scope: Scope, c: string)
    requires '|' !in c
    ensures Lower(env, c) in Alternatives(env, "" + c, scope)
  {
    assert "" + c == c;
  }

  /** The rebuilt value's needles include the lowercased candidate. */
  lemma CandidateIsNeedle(env: Env, rest: string, scope: Scope, c: string)
    requires c != "" && '|' !in c && ':' !in c
    ensures Lower(env, c) in Alternatives(env, LastAlternative(env, rest, scope).front + c, scope)
  {
    var cut := CutLast(rest, '|');
    if cut.Whole? {
      NeedleAlone(env, scope, c);
    } else {
      NeedleAfterBar(env, cut.before, cut.after, scope, c);
    }
  }

  /** The first character in front of a choice is never a new '!'. */
  lemma NoNewBang(env: Env, last: string, p: Point, c: string)
    requires BangIsItself(env) && Spells(last, p) && Reads(env, p) && Extends(env, c, p.value)
    ensures p.invert || NoBang(Affix(p.col) + (p.kept + c))
  {
    var front := Affix(p.col) + p.kept;
    Assoc(Affix(p.col), p.kept, c);
    Assoc(Affix(p.col), p.kept, p.value);
    if !p.invert {
      assert last == front + p.value;
      if front == "" {
        assert last == p.value;
        var low := Lower(env, p.value);
        assert Lower(env, c)[..|low|][0] == low[0];
      } else {
        assert (front + c)[0] == front[0] == last[0];
      }
    }
  }

  /** The term a choice stands for. */
  function Chosen(env: Env, p: Point, c: string): Term {
    Term(p.invert, p.scope, Needles(Alternatives(env, p.kept + c, p.scope)))
  }

  lemma ChoiceNames(env: Env, p: Point, c: string)
    requires Names(env, p.col, p.scope, p.kept + p.value) && ':' !in c
    ensures Names(env, p.col, p.scope, p.kept + c)
  {
    if p.col.None? {
      StaysUnscoped(env, p.kept, p.value, c);
    }
  }

  lemma NoNewRegex(kept: string, value: string, c: string)
    requires !HasPrefix(kept + value, "~") && c != "" && c[0] != '~'
    ensures (kept + c)[0] != '~'
  {
    if kept != "" {
      assert (kept + value)[..1] == [kept[0]];
    }
  }

  lemma NeedleOfChoice(env: Env, p: Point, c: string)
    requires Halves(p.kept, p.value) == LastAlternative(env, p.kept + p.value, p.scope)
    requires Choosable(c)
    ensures Lower(env, c) in Chosen(env, p, c).matcher.alts
  {
    CandidateIsNeedle(env, p.kept + p.value, p.scope, c);
  }

  lemma ChoiceToken(env: Env, last: string, p: Point, c: string)
    requires BangIsItself(env) && Spells(last, p) && Reads(env, p) && Choosable(c) && Extends(env, c, p.value)
    ensures ParseToken(env, Rebuild(p) + c) == Some(Chosen(env, p, c))
    ensures Lower(env, c) in Chosen(env, p, c).matcher.alts
  {
    ChoiceNames(env, p, c);
    NoNewRegex(p.kept, p.value, c);
    NeedleOfChoice(env, p, c);
    NoNewBang(env, last, p, c);
    TokenReads(env, p.invert, p.col, p.scope, p.kept + c);
    Rebuilt(p, c);
    PlainValueReads(env, p, c);
  }

  lemma PlainValueReads(env: Env, p: Point, c: string)
    requires c != "" && (p.kept + c)[0] != '~' && Chosen(env, p, c).matcher.alts != []
    ensures ParseValue(env, p.invert, Scoped(p.scope, p.kept + c)) == Some(Chosen(env, p, c))
  {
  }

  lemma FieldsAfterHead(head: string, s: string)
    requires EndsInSpace(head)
    ensures Fields(head + s) == Fields(head) + Fields(s)
  {
    if head == "" {
      assert head + s == s;
    } else {
      var h := head[..|head| - 1];
      assert head == h + [' '] + "" && head + s == h + [' '] + s;
      FieldsConcat(h, ' ', "");
      FieldsConcat(h, ' ', s);
    }
  }

  /** The parser sees the head's words and the rebuilt token as one word more if and only
      if what is put back in front of the choice holds no white space: the completer looks
      for the last space only, the parser splits at every white-space character. */
  lemma ChoiceIsOneWordIff(p: Point, c: string)
    requires EndsInSpace(p.head) && Choosable(c)
    ensures Fields(Prefix(p) + c) == Fields(p.head) + [Rebuild(p) + c] <==> Free(Rebuild(p), IsSpace)
  {
    var rebuild := Rebuild(p);
    Rebuilt(p, c);
    FieldsAfterHead(p.head, rebuild + c);
    if Free(rebuild, IsSpace) {
      FieldsOfWord(rebuild + c);
    }
    if Fields(Prefix(p) + c) == Fields(p.head) + [rebuild + c] {
      LastFieldIsFree(Prefix(p) + c, Fields(p.head), rebuild, c);
    }
  }

  lemma LastFieldIsFree(s: string, before: seq<string>, a: string, b: string)
    requires Fields(s) == before + [a + b]
    ensures Free(a, IsSpace)
  {
    FieldsAreWords(s);
    assert Fields(s)[|before|] == a + b;
    assert forall k :: 0 <= k < |a| ==> a[k] == (a + b)[k];
  }

  /** Completion agrees with the parser: choosing c gives the head's terms and one last
      term with the typed scope and inversion, whose needles contain the lowercased c. */
  lemma CompletionAgrees(env: Env, rows: seq<Row>, buf: string, p: Point, c: string)
    requires BangIsItself(env) && CompletionPoint(env, buf) == Some(p)
    requires Offered(env, rows, p, c) && Choosable(c) && Free(Rebuild(p), IsSpace)
    ensures Parse(env, Prefix(p) + c) == Parse(env, p.head) + [Chosen(env, p, c)]
    ensures Chosen(env, p, c).invert == p.invert && Chosen(env, p, c).scope == p.scope
    ensures Lower(env, c) in Chosen(env, p, c).matcher.alts
  {
    ChoiceIsOneWordIff(p, c);
    ParseAppend(env, Fields(p.head), [Rebuild(p) + c]);
    ParseOne(env, Rebuild(p) + c);
    ChoiceToken(env, SplitLastToken(buf).back, p, c);
  }

  // ---- the white-space condition is exact ------------------------------------------------

  /** Case mapping keeps white space and makes none. */
  ghost predicate SpaceIsItself(env: Env) {
    forall x :: (IsSpace(x) ==> env.lower(x) == x) && (IsSpace(env.lower(x)) ==> IsSpace(x))
  }

  /** The only white space in a column title is the space. */
  ghost predicate PlainTitles(env: Env) {
    forall i, j :: 0 <= i < |env.titles| && 0 <= j < |env.titles[i]| && IsSpace(env.titles[i][j]) ==> env.titles[i][j] == ' '
  }

  lemma LowerKeepsFree(env: Env, s: string)
    requires SpaceIsItself(env)
    ensures Free(Lower(env, s), IsSpace) <==> Free(s, IsSpace)
  {
    assert forall k :: 0 <= k < |s| ==> (IsSpace(Lower(env, s)[k]) <==> IsSpace(s[k]));
  }

  ghost predicate AllNeedlesFree(needles: seq<string>) {
    forall k :: 0 <= k < |needles| ==> Free(needles[k], IsSpace)
  }

  lemma SuffixIsFree(s: string, n: nat)
    requires n <= |s| && Free(s, IsSpace)
    ensures Free(s[n..], IsSpace)
  {
  }

  lemma {:induction false} CleanedAreFree(env: Env, parts: seq<string>, scope: Scope)
    requires SpaceIsItself(env) && forall k :: 0 <= k < |parts| ==> Free(parts[k], IsSpace)
    ensures AllNeedlesFree(Cleaned(env, parts, scope))
  {
    if parts != [] {
      CleanedAreFree(env, parts[1..], scope);
      var p := StripRepeatedScope(env, parts[0], scope);
      SuffixIsFree(parts[0], |parts[0]| - |p|);
      LowerKeepsFree(env, p);
    }
  }

  lemma {:induction false} PartsAreFree(s: string)
    requires Free(s, IsSpace)
    ensures forall k :: 0 <= k < |SplitBy(s, IsBar)| ==> Free(SplitBy(s, IsBar)[k], IsSpace)
  {
    if s != "" {
      SuffixIsFree(s, 1);
      PartsAreFree(s[1..]);
    }
  }

  lemma AlternativesAreFree(env: Env, value: string, scope: Scope)
    requires SpaceIsItself(env) && Free(value, IsSpace)
    ensures AllNeedlesFree(Alternatives(env, value, scope))
  {
    LowerKeepsFree(env, value);
    PartsAreFree(value);
    CleanedAreFree(env, SplitBy(value, IsBar), scope);
  }

  ghost predicate TermIsFree(t: Term) { t.matcher.Needles? ==> AllNeedlesFree(t.matcher.alts) }

  lemma ValueIsSuffix(env: Env, body: string)
    ensures var v := ScopeOf(env, body).value; |v| <= |body| && body[|body| - |v|..] == v
  {
    var col, v := ColumnOf(env, body), ScopeOf(env, body).value;
    assert body == Affix(col) + v;
  }

  lemma TokenTermIsFree(env: Env, tok: string)
    requires SpaceIsItself(env) && Free(tok, IsSpace)
    ensures ParseToken(env, tok).Some? ==> TermIsFree(ParseToken(env, tok).value)
  {
    var invert := HasPrefix(tok, "!");
    var body := if invert then tok[1..] else tok;
    if invert {
      SuffixIsFree(tok, 1);
    }
    BodyTermIsFree(env, invert, body);
  }

  lemma BodyTermIsFree(env: Env, invert: bool, body: string)
    requires SpaceIsItself(env) && Free(body, IsSpace)
    ensures var t := ParseValue(env, invert, ScopeOf(env, body)); t.Some? ==> TermIsFree(t.value)
  {
    var sv := ScopeOf(env, body);
    ValueIsSuffix(env, body);
    SuffixIsFree(body, |body| - |sv.value|);
    ValueTermIsFree(env, invert, sv);
  }

  lemma ValueTermIsFree(env: Env, invert: bool, sv: Scoped)
    requires SpaceIsItself(env) && Free(sv.value, IsSpace)
    ensures var t := ParseValue(env, invert, sv); t.Some? ==> TermIsFree(t.value)
  {
    AlternativesAreFree(env, sv.value, sv.scope);
  }

  /** No parsed needle holds white space. */
  lemma {:induction false} ParsedTermsAreFree(env: Env, toks: seq<string>)
    requires SpaceIsItself(env) && forall k :: 0 <= k < |toks| ==> Free(toks[k], IsSpace)
    ensures forall t :: t in ParseTokens(env, toks) ==> TermIsFree(t)
  {
    if toks != [] {
      ParsedTermsAreFree(env, toks[1..]);
      TokenTermIsFree(env, toks[0]);
    }
  }

  lemma ParseIsFree(env: Env, filter: string, t: Term)
    requires SpaceIsItself(env) && t in Parse(env, filter)
    ensures TermIsFree(t)
  {
    FieldsAreWords(filter);
    ParsedTermsAreFree(env, Fields(filter));
  }

  /** A typed name of a column holds no white space, having no space. */
  lemma ColumnIsFree(env: Env, col: string)
    requires SpaceIsItself(env) && PlainTitles(env) && ResolveScope(env, col).Some? && ' ' !in col
    ensures Free(col, IsSpace)
  {
    var low := Lower(env, col);
    if low == "ns" || low == "namespace" || low == "name" {
      LowerKeepsFree(env, col);
    } else {
      var title := env.titles[TitleIndex(env, env.titles, col)];
      assert Lower(env, title) == low;
      forall k | 0 <= k < |col| ensures !IsSpace(col[k]) {
        assert low[k] == Lower(env, title)[k] == env.lower(title[k]);
        assert col[k] in col;
      }
    }
  }

  /** Stripping a repeated column prefix leaves any other white space in. */
  lemma StripKeepsSpace(env: Env, alt: string, scope: Scope)
    requires SpaceIsItself(env) && PlainTitles(env) && ' ' !in alt && !Free(alt, IsSpace)
    ensures !Free(StripRepeatedScope(env, alt, scope), IsSpace)
  {
    var cut := Cut(alt, ':');
    if cut.Parts? && ResolveScope(env, cut.before) == Some(scope) {
      assert forall x :: x in cut.before ==> x in alt;
      ColumnIsFree(env, cut.before);
      SpaceIsBehind(cut.before + [':'], cut.after);
    }
  }

  /** White space in a text whose front has none is behind it. */
  lemma SpaceIsBehind(a: string, b: string)
    requires Free(a, IsSpace) && !Free(a + b, IsSpace)
    ensures !Free(b, IsSpace)
  {
    var i :| 0 <= i < |a + b| && IsSpace((a + b)[i]);
    assert i >= |a| && b[i - |a|] == (a + b)[i];
  }

  lemma SpaceIsAhead(a: string, b: string)
    requires Free(b, IsSpace) && !Free(a + b, IsSpace)
    ensures !Free(a, IsSpace)
  {
    var i :| 0 <= i < |a + b| && IsSpace((a + b)[i]);
    assert forall j :: 0 <= j < |b| ==> (a + b)[|a| + j] == b[j];
    assert i < |a| && a[i] == (a + b)[i];
  }

  lemma NotFreeAppend(a: seq<string>, b: seq<string>)
    requires !AllNeedlesFree(a) || !AllNeedlesFree(b)
    ensures !AllNeedlesFree(a + b)
  {
    if !AllNeedlesFree(a) {
      var j :| 0 <= j < |a| && !Free(a[j], IsSpace);
      assert (a + b)[j] == a[j];
    } else {
      var j :| 0 <= j < |b| && !Free(b[j], IsSpace);
      assert (a + b)[|a| + j] == b[j];
    }
  }

  lemma {:induction false} CleanedKeepsSpace(env: Env, parts: seq<string>, scope: Scope, k: nat)
    requires SpaceIsItself(env) && PlainTitles(env) && k < |parts| && ' ' !in parts[k] && !Free(parts[k], IsSpace)
    ensures !AllNeedlesFree(Cleaned(env, parts, scope))
  {
    var p := StripRepeatedScope(env, parts[0], scope);
    var own := if p == "" then [] else [Lower(env, p)];
    if k == 0 {
      StripKeepsSpace(env, parts[0], scope);
      LowerKeepsFree(env, p);
      assert own[0] == Lower(env, p);
    } else {
      CleanedKeepsSpace(env, parts[1..], scope, k - 1);
    }
    NotFreeAppend(own, Cleaned(env, parts[1..], scope));
  }

  /** White space in a text is white space in one of its parts. */
  lemma {:induction false} SomePartHasSpace(s: string) returns (k: nat)
    requires !Free(s, IsSpace) && ' ' !in s
    ensures k < |SplitBy(s, IsBar)|
    ensures ' ' !in SplitBy(s, IsBar)[k] && !Free(SplitBy(s, IsBar)[k], IsSpace)
  {
    var rest, all := SplitBy(s[1..], IsBar), SplitBy(s, IsBar);
    assert s[0] in s && forall x :: x in s[1..] ==> x in s;
    if IsSpace(s[0]) {
      k := 0;
      FirstPartIsPrefix(s[1..]);
      assert all[0] == [s[0]] + rest[0] && all[0][0] == s[0];
    } else {
      assert s == [s[0]] + s[1..];
      SpaceIsBehind([s[0]], s[1..]);
      k := SomePartHasSpace(s[1..]);
      if IsBar(s[0]) {
        assert all[k + 1] == rest[k];
        k := k + 1;
      } else if k == 0 {
        var i :| 0 <= i < |rest[0]| && IsSpace(rest[0][i]);
        assert all[0] == [s[0]] + rest[0] && all[0][i + 1] == rest[0][i];
      } else {
        assert all[k] == rest[k];
      }
    }
  }

  lemma {:induction false} FirstPartIsPrefix(s: string)
    ensures forall x :: x in SplitBy(s, IsBar)[0] ==> x in s
  {
    if s != "" {
      FirstPartIsPrefix(s[1..]);
    }
  }

  /** White space put back in front of a choice shows up in one of the needles meant. */
  lemma KeptSpaceIsMeant(env: Env, rest: string, scope: Scope, c: string)
    requires SpaceIsItself(env) && PlainTitles(env) && Choosable(c) && ' ' !in rest
    requires !Free(LastAlternative(env, rest, scope).front, IsSpace)
    ensures !AllNeedlesFree(Alternatives(env, LastAlternative(env, rest, scope).front + c, scope))
  {
    var cut := CutLast(rest, '|');
    var a, alt := cut.before, cut.after;
    assert forall x :: x in a ==> x in rest;
    assert forall x :: x in alt ==> x in rest;
    SpaceBeforeBar(env, a, alt, scope, c);
  }

  lemma SpaceBeforeBar(env: Env, a: string, alt: string, scope: Scope, c: string)
    requires SpaceIsItself(env) && PlainTitles(env) && ' ' !in a && ' ' !in alt
    requires !Free(a + ['|'] + CutRepeated(env, alt, scope).front, IsSpace)
    ensures !AllNeedlesFree(Alternatives(env, (a + ['|'] + CutRepeated(env, alt, scope).front) + c, scope))
  {
    var pre := CutRepeated(env, alt, scope).front;
    RepeatedIsFree(env, alt, scope);
    SpaceIsAhead(a + ['|'], pre);
    SpaceIsAhead(a, ['|']);
    var k := SomePartHasSpace(a);
    NeedlesBeforeBar(env, a, pre + c, scope, k);
    Assoc(a + ['|'], pre, c);
  }

  lemma RepeatedIsFree(env: Env, alt: string, scope: Scope)
    requires SpaceIsItself(env) && PlainTitles(env) && ' ' !in alt
    ensures Free(CutRepeated(env, alt, scope).front, IsSpace)
  {
    var cut := Cut(alt, ':');
    if cut.Parts? && ResolveScope(env, cut.before) == Some(scope) {
      assert forall x :: x in cut.before ==> x in alt;
      ColumnIsFree(env, cut.before);
    }
  }

  lemma NeedlesBeforeBar(env: Env, a: string, last: string, scope: Scope, k: nat)
    requires SpaceIsItself(env) && PlainTitles(env) && k < |SplitBy(a, IsBar)|
    requires ' ' !in SplitBy(a, IsBar)[k] && !Free(SplitBy(a, IsBar)[k], IsSpace)
    ensures !AllNeedlesFree(Alternatives(env, a + ['|'] + last, scope))
  {
    var v := a + ['|'] + last;
    assert v[|a|] == '|';
    SplitConcat(a, '|', last, IsBar);
    assert SplitBy(v, IsBar)[k] == SplitBy(a, IsBar)[k];
    CleanedKeepsSpace(env, SplitBy(v, IsBar), scope, k);
  }

  lemma PieceOf(a: string, b: string, c: string)
    ensures forall x :: x in b || x in c ==> x in a + (b + c)
  {
    assert forall x :: x in b || x in c ==> x in b + c;
  }

  /** White space in what is put back is in the kept value: the '!' and the column have none. */
  lemma SpaceIsInKept(env: Env, last: string, p: Point)
    requires SpaceIsItself(env) && PlainTitles(env) && Spells(last, p) && Reads(env, p) && ' ' !in last
    requires !Free(Rebuild(p), IsSpace)
    ensures !Free(p.kept, IsSpace) && ' ' !in p.kept + p.value
  {
    PieceOf(Bang(p.invert), Affix(p.col), p.kept + p.value);
    if p.col.Some? {
      assert forall x :: x in p.col.value ==> x in Affix(p.col);
      ColumnIsFree(env, p.col.value);
    }
    SpaceIsBehind(Bang(p.invert), Affix(p.col) + p.kept);
    SpaceIsBehind(Affix(p.col), p.kept);
  }

  /** Completion agrees with the parser exactly when what is put back in front of the choice
      holds no white space: for every buffer that can be completed and every choice. */
  lemma CompletionAgreesIff(env: Env, rows: seq<Row>, buf: string, p: Point, c: string)
    requires BangIsItself(env) && SpaceIsItself(env) && PlainTitles(env)
    requires CompletionPoint(env, buf) == Some(p) && Offered(env, rows, p, c) && Choosable(c)
    ensures Parse(env, Prefix(p) + c) == Parse(env, p.head) + [Chosen(env, p, c)] <==> Free(Rebuild(p), IsSpace)
  {
    if Free(Rebuild(p), IsSpace) {
      CompletionAgrees(env, rows, buf, p, c);
    } else {
      SpaceIsInKept(env, SplitLastToken(buf).back, p);
      KeptSpaceIsMeant(env, p.kept + p.value, p.scope, c);
      if Parse(env, Prefix(p) + c) == Parse(env, p.head) + [Chosen(env, p, c)] {
        ParseIsFree(env, Prefix(p) + c, Chosen(env, p, c));
      }
    }
  }

  lemma NeedleFindsRow(env: Env, p: Point, c: string, r: Row)
    requires Lower(env, c) in Chosen(env, p, c).matcher.alts && CandidateOf(r, p.scope) == Some(c)
    ensures Found(env, Chosen(env, p, c), r)
  {
    ContainsSelf(Lower(env, c));
    var alts := Chosen(env, p, c).matcher.alts;
    var k :| 0 <= k < |alts| && alts[k] == Lower(env, c);
    assert HitsAny(alts, Lower(env, c));
  }

  /** So an uninverted choice keeps every row c came from, as far as the head does, and an
      inverted one drops them all. */
  lemma ChoiceKeepsItsRows(env: Env, rows: seq<Row>, buf: string, p: Point, c: string, r: Row)
    requires BangIsItself(env) && CompletionPoint(env, buf) == Some(p)
    requires Offered(env, rows, p, c) && Choosable(c) && Free(Rebuild(p), IsSpace)
    requires CandidateOf(r, p.scope) == Some(c)
    ensures Keeps(env, Prefix(p) + c, r) <==> Keeps(env, p.head, r) && !p.invert
  {
    var t := Chosen(env, p, c);
    CompletionAgrees(env, rows, buf, p, c);
    NeedleFindsRow(env, p, c, r);
    MatchesAppend(env, r, Parse(env, p.head), [t]);
    OneTermMatches(env, r, t);
  }

  lemma OneTermMatches(env: Env, r: Row, t: Term)
    ensures MatchesAll(env, r, [t]) <==> Satisfies(env, t, r)
  {
    assert [t][0] == t;
  }

  // ---- why the white-space condition is there --------------------------------

  /** A word with no character the language gives a meaning to. */
  ghost predicate Bare(w: string) { Choosable(w) && w[0] != '!' }

  lemma BareToken(env: Env, w: string)
    requires IsWord(w) && ':' !in w && w[0] != '!' && w[0] != '~' && Alternatives(env, w, AnyField) != []
    ensures ParseToken(env, w) == Some(Term(false, AnyField, Needles(Alternatives(env, w, AnyField))))
  {
    assert "" + w == w && TokenOf(false, None, w) == w;
    TokenReads(env, false, None, AnyField, w);
  }

  /** A token ending in '|' with no column prefix: all of it is put back. */
  lemma BarPoint(env: Env, buf: string)
    requires buf != "" && buf[|buf| - 1] == '|' && ' ' !in buf && ':' !in buf
    requires buf[0] != '!' && buf[0] != '~'
    ensures CompletionPoint(env, buf) == Some(Point("", false, None, AnyField, buf, ""))
  {
    assert SplitLastToken(buf) == Halves("", buf);
    BarPointAt(env, buf);
    assert PointIn(env, "", buf) == Some(PointAt(env, "", false, buf));
  }

  lemma BarPointAt(env: Env, body: string)
    requires body != "" && body[|body| - 1] == '|' && ':' !in body
    ensures PointAt(env, "", false, body) == Point("", false, None, AnyField, body, "")
  {
    NothingAfterBar(env, body, AnyField);
  }

  lemma NothingAfterBar(env: Env, value: string, scope: Scope)
    requires value != "" && value[|value| - 1] == '|'
    ensures LastAlternative(env, value, scope) == Halves(value, "")
  {
    var cut := CutLast(value, '|');
    assert cut.after == "" && CutRepeated(env, "", scope) == Halves("", "");
  }

  /** An empty value is extended by every candidate. */
  lemma EmptyValueOffersAll(env: Env, rows: seq<Row>, p: Point)
    requires p.value == ""
    ensures forall c :: Offered(env, rows, p, c) <==> c != "" && Contributed(rows, p.scope, c)
  {
    forall c ensures Extends(env, c, "") <==> c != "" {
      assert Lower(env, "") == "" && Lower(env, c)[..0] == "";
    }
  }

  /** The last character of a token is the last one of its value, or belongs to its affixes. */
  lemma TokenEndsInBar(last: string, p: Point)
    requires Spells(last, p) && last[|last| - 1] == '|'
    ensures var v := p.kept + p.value; v != "" && v[|v| - 1] == '|'
  {
    LastOf(Bang(p.invert), Affix(p.col), p.kept + p.value);
  }

  lemma LastOf(a: string, b: string, c: string)
    requires a + (b + c) != ""
    ensures var s := a + (b + c);
      s[|s| - 1] == if c != "" then c[|c| - 1] else if b != "" then b[|b| - 1] else a[|a| - 1]
  {
  }

  lemma BufferEndsInBar(buf: string)
    requires buf != "" && buf[|buf| - 1] == '|'
    ensures var last := SplitLastToken(buf).back; last != "" && last[|last| - 1] == '|'
  {
    var split := SplitLastToken(buf);
    assert split.back == "" ==> split.front == buf;
  }

  /** In every buffer that can be completed, behind whatever head, inversion and column, a
      trailing '|' has an empty value and therefore offers every candidate. */
  lemma TrailingBarOffersAll(env: Env, rows: seq<Row>, buf: string, p: Point)
    requires buf != "" && buf[|buf| - 1] == '|' && CompletionPoint(env, buf) == Some(p)
    ensures p.value == ""
    ensures forall c :: Offered(env, rows, p, c) <==> c != "" && Contributed(rows, p.scope, c)
  {
    BufferEndsInBar(buf);
    BarIsLast(env, SplitLastToken(buf).back, p);
    EmptyValueOffersAll(env, rows, p);
  }

  lemma BarIsLast(env: Env, last: string, p: Point)
    requires Spells(last, p) && Reads(env, p) && last[|last| - 1] == '|'
    ensures p.value == ""
  {
    TokenEndsInBar(last, p);
    NothingAfterBar(env, p.kept + p.value, p.scope);
  }

  lemma SplitTokenIsClear(u: string, sp: char, w: string)
    requires Bare(u) && Bare(w) && IsSpace(sp) && sp != ' '
    ensures var buf := u + [sp] + (w + ['|']);
      && buf != "" && buf[|buf| - 1] == '|' && ' ' !in buf && ':' !in buf
      && buf[0] != '!' && buf[0] != '~'
  {
    assert forall k :: 0 <= k < |u| ==> !IsSpace(u[k]);
    assert forall k :: 0 <= k < |w| ==> !IsSpace(w[k]);
    var buf := u + [sp] + (w + ['|']);
    assert buf[0] == u[0];
  }

  lemma PrefixOfAll(buf: string, c: string)
    ensures Prefix(Point("", false, None, AnyField, buf, "")) + c == buf + c
  {
    assert "" + ("" + ("" + buf)) == buf;
  }

  /** The words u and w split by a character that is white space but not a space, such as
      a tab: the completer takes them for one token, the parser for two, and the choice
      adds two terms instead of one. */
  lemma OtherWhiteSpaceSplits(env: Env, u: string, sp: char, w: string, c: string)
    requires Bare(u) && Bare(w) && Choosable(c) && IsSpace(sp) && sp != ' '
    ensures var buf := u + [sp] + (w + ['|']);
      var p := Point("", false, None, AnyField, buf, "");
      && CompletionPoint(env, buf) == Some(p)
      && Parse(env, p.head) == [] && |Parse(env, Prefix(p) + c)| == 2
  {
    var buf := u + [sp] + (w + ['|']);
    SplitTokenIsClear(u, sp, w);
    BarPoint(env, buf);
    PrefixOfAll(buf, c);
    Assoc(u + [sp], w + ['|'], c);
    TwoTokens(env, u, sp, w, c);
  }

  lemma BarTokenIsClear(w: string, c: string)
    requires Bare(w) && Choosable(c)
    ensures var tok := w + ['|'] + c; IsWord(tok) && ':' !in tok && tok[0] != '!' && tok[0] != '~'
  {
    var tok := w + ['|'] + c;
    assert tok[0] == w[0];
  }

  lemma TwoWords(env: Env, u: string, sp: char, tok: string)
    requires IsWord(u) && IsWord(tok) && IsSpace(sp)
    ensures Parse(env, u + [sp] + tok) == AsSeq(ParseToken(env, u)) + AsSeq(ParseToken(env, tok))
  {
    FieldsConcat(u, sp, tok);
    FieldsOfWord(u);
    FieldsOfWord(tok);
    ParseAppend(env, [u], [tok]);
    ParseOne(env, u);
    ParseOne(env, tok);
  }

  lemma TwoTokens(env: Env, u: string, sp: char, w: string, c: string)
    requires Bare(u) && Bare(w) && Choosable(c) && IsSpace(sp)
    ensures |Parse(env, u + [sp] + (w + ['|'] + c))| == 2
  {
    BarTokenIsClear(w, c);
    TwoWords(env, u, sp, w + ['|'] + c);
    BareToken(env, u);
    ChoiceIsPlain(env, c);
    LastNeedle(env, w, c, AnyField);
    BareToken(env, w + ['|'] + c);
  }

  lemma ChoiceIsPlain(env: Env, c: string)
    requires ':' !in c
    ensures StripRepeatedScope(env, c, AnyField) == c
  {
  }
}
