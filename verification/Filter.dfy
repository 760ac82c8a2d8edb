/** The live "/" filter language (internal/view/resource.go): terms separated by white
    space and combined with AND, each "[!][col:][~]value", a plain value being a list of
    alternatives "a|b". Parsing and matching, and the algebra of filters. */
module Filter {
  import opened Text
  import opened Rows
  import opened Picking

  /** What the language depends on: the column titles in view, the case mapping, and the
      regular-expression engine, whose patterns may fail to compile. */
  datatype Env = Env(titles: seq<string>, lower: char -> char,
                     compiles: string -> bool, matches: (string, string) -> bool)

  function Lower(env: Env, s: string): (t: string)
    ensures |t| == |s| && forall k :: 0 <= k < |s| ==> t[k] == env.lower(s[k])
  {
    seq(|s|, i requires 0 <= i < |s| => env.lower(s[i]))
  }

  datatype Scope = AnyField | Name | Namespace | CellAt(idx: nat)

  datatype Matcher = Regex(pattern: string) | Needles(alts: seq<string>)

  datatype Term = Term(invert: bool, scope: Scope, matcher: Matcher)

  // ---- parsing ---------------------------------------------------------------

  /** The first title equal to col up to case, or |titles|. */
  function TitleIndex(env: Env, titles: seq<string>, col: string): (i: nat)
    ensures i <= |titles|
    ensures i < |titles| ==> Lower(env, titles[i]) == Lower(env, col)
    ensures forall k :: 0 <= k < i ==> Lower(env, titles[k]) != Lower(env, col)
  {
    if titles == [] || Lower(env, titles[0]) == Lower(env, col) then 0
    else 1 + TitleIndex(env, titles[1..], col)
  }

  /** The scope a "col:" prefix names, if it names one. */
  function ResolveScope(env: Env, col: string): (r: Option<Scope>)
    ensures r != Some(AnyField)
  {
    var low := Lower(env, col);
    if low == "ns" || low == "namespace" then Some(Namespace)
    else if low == "name" then Some(Name)
    else
      var i := TitleIndex(env, env.titles, col);
      if i < |env.titles| then Some(CellAt(i)) else None
  }

  /** One alternative without a redundant prefix naming the term's own column. */
  function StripRepeatedScope(env: Env, alt: string, scope: Scope): (r: string)
    ensures r == alt || (|r| < |alt| && alt[|alt| - |r|..] == r && ':' in alt)
  {
    if scope == AnyField then alt
    else
      match Cut(alt, ':')
      case Whole => alt
      case Parts(col, rest) => if ResolveScope(env, col) == Some(scope) then rest else alt
  }

  /** The needles of a list of parts: stripped, the empty ones dropped, lowercased. */
  function Cleaned(env: Env, parts: seq<string>, scope: Scope): seq<string> {
    if parts == [] then []
    else
      var p := StripRepeatedScope(env, parts[0], scope);
      (if p == "" then [] else [Lower(env, p)]) + Cleaned(env, parts[1..], scope)
  }

  function Alternatives(env: Env, value: string, scope: Scope): seq<string> {
    if '|' !in value then [Lower(env, value)]
    else Cleaned(env, SplitBy(value, IsBar), scope)
  }

  datatype Scoped = Scoped(scope: Scope, value: string)

  function ScopeOf(env: Env, body: string): Scoped {
    match Cut(body, ':')
    case Whole => Scoped(AnyField, body)
    case Parts(col, val) =>
      match ResolveScope(env, col)
      case None => Scoped(AnyField, body)
      case Some(s) => Scoped(s, val)
  }

  function ParseValue(env: Env, invert: bool, sv: Scoped): (r: Option<Term>) {
    if sv.value == "" then None
    else if sv.value[0] == '~' then
      var pattern := "(?i)" + sv.value[1..];
      if env.compiles(pattern) then Some(Term(invert, sv.scope, Regex(pattern))) else None
    else
      var alts := Alternatives(env, sv.value, sv.scope);
      if alts == [] then None else Some(Term(invert, sv.scope, Needles(alts)))
  }

  /** The term one token stands for; None for the tokens that are ignored. */
  function ParseToken(env: Env, tok: string): (r: Option<Term>) {
    var invert := HasPrefix(tok, "!");
    var body := if invert then tok[1..] else tok;
    if body == "" then None else ParseValue(env, invert, ScopeOf(env, body))
  }

  function AsSeq(t: Option<Term>): seq<Term> { if t.Some? then [t.value] else [] }

  function ParseTokens(env: Env, toks: seq<string>): seq<Term> {
    if toks == [] then [] else AsSeq(ParseToken(env, toks[0])) + ParseTokens(env, toks[1..])
  }

  function Parse(env: Env, filter: string): seq<Term> { ParseTokens(env, Fields(filter)) }

  lemma {:induction false} CleanedAppend(env: Env, a: seq<string>, b: seq<string>, scope: Scope)
    ensures Cleaned(env, a + b, scope) == Cleaned(env, a, scope) + Cleaned(env, b, scope)
  {
    if a == [] {
      assert a + b == b;
    } else {
      Uncons(a, b);
      CleanedAppend(env, a[1..], b, scope);
      var p := StripRepeatedScope(env, a[0], scope);
      Assoc(if p == "" then [] else [Lower(env, p)], Cleaned(env, a[1..], scope), Cleaned(env, b, scope));
    }
  }

  lemma CleanedSnoc(env: Env, parts: seq<string>, i: nat, scope: Scope)
    requires i < |parts|
    ensures var p := StripRepeatedScope(env, parts[i], scope);
      Cleaned(env, parts[..i + 1], scope) ==
      Cleaned(env, parts[..i], scope) + (if p == "" then [] else [Lower(env, p)])
  {
    assert parts[..i + 1] == parts[..i] + [parts[i]] && [parts[i]][1..] == [];
    CleanedAppend(env, parts[..i], [parts[i]], scope);
  }

  lemma {:induction false} ParseAppend(env: Env, a: seq<string>, b: seq<string>)
    ensures ParseTokens(env, a + b) == ParseTokens(env, a) + ParseTokens(env, b)
  {
    if a == [] {
      assert a + b == b;
    } else {
      Uncons(a, b);
      ParseAppend(env, a[1..], b);
      Assoc(AsSeq(ParseToken(env, a[0])), ParseTokens(env, a[1..]), ParseTokens(env, b));
    }
  }

  lemma ParseSnoc(env: Env, toks: seq<string>, i: nat)
    requires i < |toks|
    ensures ParseTokens(env, toks[..i + 1]) == ParseTokens(env, toks[..i]) + AsSeq(ParseToken(env, toks[i]))
  {
    assert toks[..i + 1] == toks[..i] + [toks[i]];
    ParseAppend(env, toks[..i], [toks[i]]);
    ParseOne(env, toks[i]);
  }

  lemma ParseOne(env: Env, tok: string)
    ensures ParseTokens(env, [tok]) == AsSeq(ParseToken(env, tok))
  {
    assert [tok][1..] == [];
  }

  /** splitAlternatives: the loop over the parts. */
  method SplitAlternatives(env: Env, value: string, scope: Scope) returns (out: seq<string>)
    ensures out == Alternatives(env, value, scope)
    ensures forall k :: 0 <= k < |out| && value != "" ==> out[k] != ""
  {
    if '|' !in value {
      return [Lower(env, value)];
    }
    var parts := SplitBy(value, IsBar);
    out := [];
    for i := 0 to |parts|
      invariant out == Cleaned(env, parts[..i], scope)
      invariant forall k :: 0 <= k < |out| ==> out[k] != ""
    {
      var p := StripRepeatedScope(env, parts[i], scope);
      if p != "" {
        out := out + [Lower(env, p)];
      }
      CleanedSnoc(env, parts, i, scope);
    }
    assert parts[..|parts|] == parts;
  }

  /** One round of parseFilter's loop: the term of a token, unless it means nothing. */
  method ParseOneToken(env: Env, token: string) returns (term: Option<Term>)
    ensures term == ParseToken(env, token)
  {
    var tok := token;
    var invert := HasPrefix(tok, "!");
    if invert {
      tok := tok[1..];
    }
    if tok == "" {
      return None;
    }
    var scope, value := AnyField, tok;
    var cut := Cut(tok, ':');
    if cut.Parts? {
      var s := ResolveScope(env, cut.before);
      if s.Some? {
        scope, value := s.value, cut.after;
      }
    }
    assert ScopeOf(env, tok) == Scoped(scope, value);
    if value == "" {
      return None;
    }
    if value[0] == '~' {
      var pattern := "(?i)" + value[1..];
      return if env.compiles(pattern) then Some(Term(invert, scope, Regex(pattern))) else None;
    }
    var needles := SplitAlternatives(env, value, scope);
    return if |needles| == 0 then None else Some(Term(invert, scope, Needles(needles)));
  }

  /** parseFilter: the terms of the tokens, in order. */
  method ParseFilter(env: Env, filter: string) returns (terms: seq<Term>)
    ensures terms == Parse(env, filter)
  {
    terms := [];
    var toks := Fields(filter);
    for i := 0 to |toks|
      invariant terms == ParseTokens(env, toks[..i])
    {
      var term := ParseOneToken(env, toks[i]);
      if term.Some? {
        terms := terms + [term.value];
      }
      ParseSnoc(env, toks, i);
    }
    assert toks[..|toks|] == toks;
  }

  // ---- matching --------------------------------------------------------------

  predicate HitsAny(needles: seq<string>, low: string) {
    exists k :: 0 <= k < |needles| && Contains(low, needles[k])
  }

  predicate Hit(env: Env, m: Matcher, s: string) {
    match m
    case Regex(pattern) => env.matches(pattern, s)
    case Needles(alts) => HitsAny(alts, Lower(env, s))
  }

  predicate Found(env: Env, t: Term, r: Row) {
    match t.scope
    case Name => Hit(env, t.matcher, r.name)
    case Namespace => Hit(env, t.matcher, r.namespace)
    case CellAt(i) => i < |r.cells| && Hit(env, t.matcher, r.cells[i].text)
    case AnyField =>
      || Hit(env, t.matcher, r.namespace)
      || Hit(env, t.matcher, r.name)
      || exists k :: 0 <= k < |r.cells| && Hit(env, t.matcher, r.cells[k].text)
  }

  predicate Satisfies(env: Env, t: Term, r: Row) { Found(env, t, r) != t.invert }

  predicate MatchesAll(env: Env, r: Row, terms: seq<Term>) {
    forall k :: 0 <= k < |terms| ==> Satisfies(env, terms[k], r)
  }

  predicate Keeps(env: Env, filter: string, r: Row) { MatchesAll(env, r, Parse(env, filter)) }

  function Test(env: Env, terms: seq<Term>): Row -> bool { r => MatchesAll(env, r, terms) }

  function Filtered(env: Env, rows: seq<Row>, filter: string): seq<Row> {
    Pick(rows, Test(env, Parse(env, filter)))
  }

  /** filterRows: no terms returns the rows themselves. */
  method FilterRows(env: Env, rows: seq<Row>, filter: string) returns (out: seq<Row>)
    ensures out == Filtered(env, rows, filter)
  {
    var terms := ParseFilter(env, filter);
    ghost var p := Test(env, terms);
    if |terms| == 0 {
      PickAll(rows, p);
      return rows;
    }
    out := [];
    for i := 0 to |rows|
      invariant out == Pick(rows[..i], p)
    {
      PickSnoc(rows, i, p);
      if MatchesAll(env, rows[i], terms) {
        out := out + [rows[i]];
      }
    }
    assert rows[..|rows|] == rows;
  }

  // ---- the algebra of filters ------------------------------------------------

  /** The output is the order-preserving subsequence of exactly the kept rows. */
  lemma OutputIsOrderedSelection(env: Env, rows: seq<Row>, filter: string) returns (idx: seq<nat>)
    ensures Increasing(idx)
    ensures forall i: nat :: i in idx <==> i < |rows| && Keeps(env, filter, rows[i])
    ensures |Filtered(env, rows, filter)| == |idx|
    ensures forall k :: 0 <= k < |idx| ==> idx[k] < |rows| && Filtered(env, rows, filter)[k] == rows[idx[k]]
  {
    idx := PickIsSelection(rows, Test(env, Parse(env, filter)));
  }

  lemma MatchesAppend(env: Env, r: Row, a: seq<Term>, b: seq<Term>)
    ensures MatchesAll(env, r, a + b) <==> MatchesAll(env, r, a) && MatchesAll(env, r, b)
  {
    var ab := a + b;
    if MatchesAll(env, r, ab) {
      forall k | 0 <= k < |a| ensures Satisfies(env, a[k], r) { assert ab[k] == a[k]; }
      forall k | 0 <= k < |b| ensures Satisfies(env, b[k], r) { assert ab[|a| + k] == b[k]; }
    }
  }

  lemma ParseBoth(env: Env, f: string, g: string)
    ensures Parse(env, f + " " + g) == Parse(env, f) + Parse(env, g)
  {
    FieldsConcat(f, ' ', g);
    ParseAppend(env, Fields(f), Fields(g));
  }

  /** Filtering by both texts at once is filtering by one and then by the other. */
  lemma FilterComposes(env: Env, rows: seq<Row>, f: string, g: string)
    ensures Filtered(env, rows, f + " " + g) == Filtered(env, Filtered(env, rows, f), g)
  {
    ParseBoth(env, f, g);
    var a, b := Parse(env, f), Parse(env, g);
    forall k | 0 <= k < |rows|
      ensures Test(env, a + b)(rows[k]) <==> Test(env, a)(rows[k]) && Test(env, b)(rows[k])
    {
      MatchesAppend(env, rows[k], a, b);
    }
    PickTwice(rows, Test(env, a), Test(env, b), Test(env, a + b));
  }

  // ---- one token, from its pieces --------------------------------------------

  /** A column prefix the parser reads back as written, or none. */
  function Affix(col: Option<string>): string {
    if col.Some? then col.value + ":" else ""
  }

  function TokenOf(invert: bool, col: Option<string>, value: string): string {
    (if invert then "!" else "") + (Affix(col) + value)
  }

  /** The prefix names scope; without one the value must not look as if it had one. */
  ghost predicate Names(env: Env, col: Option<string>, scope: Scope, value: string) {
    match col
    case Some(c) => ':' !in c && ResolveScope(env, c) == Some(scope)
    case None => scope == AnyField && ScopeOf(env, value) == Scoped(AnyField, value)
  }

  ghost predicate NoBang(s: string) { s == "" || s[0] != '!' }

  /** Reading a written token: exactly the inversion, scope and value it was made from. */
  lemma TokenReads(env: Env, invert: bool, col: Option<string>, scope: Scope, value: string)
    requires value != "" && Names(env, col, scope, value)
    requires invert || NoBang(Affix(col) + value)
    ensures ParseToken(env, TokenOf(invert, col, value)) == ParseValue(env, invert, Scoped(scope, value))
  {
    TokenBody(invert, Affix(col) + value);
    ScopeReads(env, col, scope, value);
  }

  lemma TokenBody(invert: bool, body: string)
    requires body != "" && (invert || body[0] != '!')
    ensures var tok := (if invert then "!" else "") + body;
      HasPrefix(tok, "!") == invert && (if invert then tok[1..] else tok) == body
  {
    var tok := (if invert then "!" else "") + body;
    assert tok[..1] == if invert then "!" else [body[0]];
  }

  lemma ScopeReads(env: Env, col: Option<string>, scope: Scope, value: string)
    requires Names(env, col, scope, value)
    ensures ScopeOf(env, Affix(col) + value) == Scoped(scope, value)
  {
    if col.Some? {
      assert Affix(col) + value == col.value + [':'] + value;
      CutIs(col.value, ':', value);
    } else {
      assert Affix(col) + value == value;
    }
  }

  lemma TokenIsWord(invert: bool, col: Option<string>, value: string)
    requires value != "" && Free(value, IsSpace) && Free(Affix(col), IsSpace)
    ensures IsWord(TokenOf(invert, col, value))
  {
  }

  /** A filter that is one written token. */
  lemma ParseIs(env: Env, invert: bool, col: Option<string>, scope: Scope, value: string)
    requires value != "" && Names(env, col, scope, value)
    requires invert || NoBang(Affix(col) + value)
    requires Free(value, IsSpace) && Free(Affix(col), IsSpace)
    ensures Parse(env, TokenOf(invert, col, value)) == AsSeq(ParseValue(env, invert, Scoped(scope, value)))
  {
    TokenIsWord(invert, col, value);
    FieldsOfWord(TokenOf(invert, col, value));
    ParseOne(env, TokenOf(invert, col, value));
    TokenReads(env, invert, col, scope, value);
  }

  // ---- alternation -----------------------------------------------------------

  /** The needles of every value's own term, one after the other. */
  function AllNeedles(env: Env, vs: seq<string>, scope: Scope): seq<string> {
    if vs == [] then [] else Alternatives(env, vs[0], scope) + AllNeedles(env, vs[1..], scope)
  }

  /** The needles the values have inside one alternation. */
  function JoinedNeedles(env: Env, vs: seq<string>, scope: Scope): seq<string> {
    if vs == [] then []
    else Cleaned(env, SplitBy(vs[0], IsBar), scope) + JoinedNeedles(env, vs[1..], scope)
  }

  lemma {:induction false} SplitOfJoin(env: Env, vs: seq<string>, scope: Scope)
    requires vs != []
    ensures Cleaned(env, SplitBy(Join(vs, "|"), IsBar), scope) == JoinedNeedles(env, vs, scope)
  {
    if |vs| == 1 {
      assert JoinedNeedles(env, vs[1..], scope) == [];
    } else {
      SplitOfJoin(env, vs[1..], scope);
      SplitConcat(vs[0], '|', Join(vs[1..], "|"), IsBar);
      CleanedAppend(env, SplitBy(vs[0], IsBar), SplitBy(Join(vs[1..], "|"), IsBar), scope);
    }
  }

  /** Several values joined by '|' have the needles the values have as alternatives. */
  lemma JoinedAlternatives(env: Env, vs: seq<string>, scope: Scope)
    requires |vs| >= 2
    ensures Alternatives(env, Join(vs, "|"), scope) == JoinedNeedles(env, vs, scope)
  {
    SplitOfJoin(env, vs, scope);
    assert Join(vs, "|")[|vs[0]|] == '|';
  }

  lemma HitsAppend(a: seq<string>, b: seq<string>, low: string)
    ensures HitsAny(a + b, low) <==> HitsAny(a, low) || HitsAny(b, low)
  {
    var ab := a + b;
    if HitsAny(a, low) {
      var k :| 0 <= k < |a| && Contains(low, a[k]);
      assert ab[k] == a[k];
    }
    if HitsAny(b, low) {
      var k :| 0 <= k < |b| && Contains(low, b[k]);
      assert ab[|a| + k] == b[k];
    }
  }

  /** A value that means the same alone as inside an alternation. */
  ghost predicate Plain(env: Env, col: Option<string>, scope: Scope, v: string) {
    && IsWord(v) && '|' !in v && v[0] != '~'
    && StripRepeatedScope(env, v, scope) == v
    && (col.None? ==> ':' !in v)
  }

  lemma PlainNeedle(env: Env, col: Option<string>, scope: Scope, v: string)
    requires Plain(env, col, scope, v)
    ensures Alternatives(env, v, scope) == [Lower(env, v)]
    ensures Cleaned(env, SplitBy(v, IsBar), scope) == [Lower(env, v)]
  {
    SplitOfFree(v, IsBar);
    assert [v][1..] == [];
  }

  function LowerAll(env: Env, vs: seq<string>): (r: seq<string>)
    ensures |r| == |vs| && forall k :: 0 <= k < |vs| ==> r[k] == Lower(env, vs[k])
  {
    if vs == [] then [] else [Lower(env, vs[0])] + LowerAll(env, vs[1..])
  }

  lemma {:induction false} PlainNeedles(env: Env, col: Option<string>, scope: Scope, vs: seq<string>)
    requires forall k :: 0 <= k < |vs| ==> Plain(env, col, scope, vs[k])
    ensures JoinedNeedles(env, vs, scope) == LowerAll(env, vs)
    ensures AllNeedles(env, vs, scope) == LowerAll(env, vs)
  {
    if vs != [] {
      PlainNeedle(env, col, scope, vs[0]);
      PlainNeedles(env, col, scope, vs[1..]);
    }
  }

  /** The term of an alternation of plain values has one needle per value. */
  lemma PlainAlternatives(env: Env, col: Option<string>, scope: Scope, vs: seq<string>)
    requires vs != [] && forall k :: 0 <= k < |vs| ==> Plain(env, col, scope, vs[k])
    ensures Alternatives(env, Join(vs, "|"), scope) == LowerAll(env, vs)
  {
    if |vs| >= 2 {
      PlainNeedles(env, col, scope, vs);
      JoinedAlternatives(env, vs, scope);
    } else {
      PlainNeedle(env, col, scope, vs[0]);
      assert LowerAll(env, vs[1..]) == [];
    }
  }

  lemma {:induction false} JoinKeepsClear(vs: seq<string>)
    requires vs != [] && forall k :: 0 <= k < |vs| ==> IsWord(vs[k])
    ensures IsWord(Join(vs, "|")) && IsWord(vs[0]) && Join(vs, "|")[0] == vs[0][0]
    ensures (forall k :: 0 <= k < |vs| ==> ':' !in vs[k]) ==> ':' !in Join(vs, "|")
  {
    JoinFree(vs, '|', IsSpace);
    if |vs| > 1 {
      JoinKeepsClear(vs[1..]);
    }
  }

  /** How a prefix and inversion may be written in front of plain values. */
  ghost predicate Writable(env: Env, invert: bool, col: Option<string>, scope: Scope, vs: seq<string>) {
    && vs != []
    && Free(Affix(col), IsSpace)
    && (forall k :: 0 <= k < |vs| ==> Plain(env, col, scope, vs[k]) && (invert || NoBang(Affix(col) + vs[k])))
    && (match col
        case Some(c) => ':' !in c && ResolveScope(env, c) == Some(scope)
        case None => scope == AnyField)
  }

  lemma OneValue(env: Env, invert: bool, col: Option<string>, scope: Scope, vs: seq<string>, k: nat)
    requires Writable(env, invert, col, scope, vs) && k < |vs|
    ensures Parse(env, TokenOf(invert, col, vs[k])) == [Term(invert, scope, Needles([Lower(env, vs[k])]))]
  {
    ParseIs(env, invert, col, scope, vs[k]);
  }

  lemma AllValues(env: Env, invert: bool, col: Option<string>, scope: Scope, vs: seq<string>)
    requires Writable(env, invert, col, scope, vs)
    ensures Parse(env, TokenOf(invert, col, Join(vs, "|")))
         == [Term(invert, scope, Needles(Alternatives(env, Join(vs, "|"), scope)))]
  {
    JoinKeepsClear(vs);
    PlainAlternatives(env, col, scope, vs);
    var joined := Join(vs, "|");
    assert NoBang(Affix(col) + joined) <==> NoBang(Affix(col) + vs[0]);
    ParseIs(env, invert, col, scope, joined);
  }

  lemma HitIsUnion(env: Env, ns: seq<string>, s: string)
    ensures Hit(env, Needles(ns), s) <==> exists k :: 0 <= k < |ns| && Hit(env, Needles([ns[k]]), s)
  {
    forall k | 0 <= k < |ns|
      ensures Hit(env, Needles([ns[k]]), s) <==> Contains(Lower(env, s), ns[k])
    {
      assert [ns[k]][0] == ns[k];
    }
  }

  /** The texts a scope looks at in a row. */
  function Texts(scope: Scope, r: Row): seq<string> {
    match scope
    case Name => [r.name]
    case Namespace => [r.namespace]
    case CellAt(i) => if i < |r.cells| then [r.cells[i].text] else []
    case AnyField => [r.namespace, r.name] + seq(|r.cells|, k requires 0 <= k < |r.cells| => r.cells[k].text)
  }

  /** A term is found where its matcher hits one of the texts in scope. */
  lemma FoundInTexts(env: Env, t: Term, r: Row)
    ensures Found(env, t, r) <==>
            exists j :: 0 <= j < |Texts(t.scope, r)| && Hit(env, t.matcher, Texts(t.scope, r)[j])
  {
    var ts := Texts(t.scope, r);
    match t.scope {
      case AnyField =>
        assert ts[0] == r.namespace && ts[1] == r.name;
        assert forall k :: 0 <= k < |r.cells| ==> ts[k + 2] == r.cells[k].text;
        if Found(env, t, r) && !Hit(env, t.matcher, ts[0]) && !Hit(env, t.matcher, ts[1]) {
          var k :| 0 <= k < |r.cells| && Hit(env, t.matcher, r.cells[k].text);
          assert Hit(env, t.matcher, ts[k + 2]);
        }
        if j :| 0 <= j < |ts| && Hit(env, t.matcher, ts[j]) {
          assert j >= 2 ==> ts[j] == r.cells[j - 2].text;
        }
      case Name => assert |ts| == 1 && ts[0] == r.name;
      case Namespace => assert |ts| == 1 && ts[0] == r.namespace;
      case CellAt(i) => assert i < |r.cells| ==> |ts| == 1 && ts[0] == r.cells[i].text;
    }
  }

  /** A term of several needles is found where one of its single-needle terms is. */
  lemma FoundIsUnion(env: Env, scope: Scope, ns: seq<string>, r: Row)
    ensures Found(env, Term(false, scope, Needles(ns)), r) <==>
            exists k :: 0 <= k < |ns| && Found(env, Term(false, scope, Needles([ns[k]])), r)
  {
    var ts := Texts(scope, r);
    FoundInTexts(env, Term(false, scope, Needles(ns)), r);
    forall k | 0 <= k < |ns|
      ensures Found(env, Term(false, scope, Needles([ns[k]])), r) <==>
              exists j :: 0 <= j < |ts| && Hit(env, Needles([ns[k]]), ts[j])
    {
      FoundInTexts(env, Term(false, scope, Needles([ns[k]])), r);
    }
    forall j | 0 <= j < |ts|
      ensures Hit(env, Needles(ns), ts[j]) <==> exists k :: 0 <= k < |ns| && Hit(env, Needles([ns[k]]), ts[j])
    {
      HitIsUnion(env, ns, ts[j]);
    }
  }

  /** A filter of one term. */
  lemma KeepsOne(env: Env, filter: string, t: Term, r: Row)
    requires Parse(env, filter) == [t]
    ensures Keeps(env, filter, r) <==> Found(env, t.(invert := false), r) != t.invert
  {
    assert [t][0] == t;
  }

  /** An alternation of plain values keeps the union of what each value keeps; the
      inverted alternation keeps the intersection of the inverted ones. */
  lemma AlternationIsUnion(env: Env, invert: bool, col: Option<string>, scope: Scope, vs: seq<string>, r: Row)
    requires Writable(env, invert, col, scope, vs)
    ensures Keeps(env, TokenOf(invert, col, Join(vs, "|")), r) <==>
            if invert then forall k :: 0 <= k < |vs| ==> Keeps(env, TokenOf(true, col, vs[k]), r)
            else exists k :: 0 <= k < |vs| && Keeps(env, TokenOf(false, col, vs[k]), r)
  {
    var ns := Alternatives(env, Join(vs, "|"), scope);
    AllValues(env, invert, col, scope, vs);
    KeepsOne(env, TokenOf(invert, col, Join(vs, "|")), Term(invert, scope, Needles(ns)), r);
    PlainAlternatives(env, col, scope, vs);
    FoundIsUnion(env, scope, ns, r);
    forall k | 0 <= k < |vs|
      ensures Keeps(env, TokenOf(invert, col, vs[k]), r) <==>
              Found(env, Term(false, scope, Needles([ns[k]])), r) != invert
    {
      OneValue(env, invert, col, scope, vs, k);
      KeepsOne(env, TokenOf(invert, col, vs[k]), Term(invert, scope, Needles([ns[k]])), r);
    }
  }

  // ---- what a query asks of a row ------------------------------------------------------

  /** What a column name stands for, up to case: the namespace, the name, the first column of that
      title, or nothing, which AnyField says here. */
  ghost predicate Denotes(env: Env, col: string, scope: Scope) {
    var low := Lower(env, col);
    match scope
    case Namespace => low == "ns" || low == "namespace"
    case Name => low == "name"
    case CellAt(i) =>
      && low != "ns" && low != "namespace" && low != "name"
      && i < |env.titles| && Lower(env, env.titles[i]) == low
      && forall k :: 0 <= k < i ==> Lower(env, env.titles[k]) != low
    case AnyField =>
      && low != "ns" && low != "namespace" && low != "name"
      && forall k :: 0 <= k < |env.titles| ==> Lower(env, env.titles[k]) != low
  }

  /** The parser resolves a prefix to exactly what it denotes. */
  lemma ResolvesAsDenoted(env: Env, col: string, scope: Scope)
    ensures Denotes(env, col, scope) <==> ResolveScope(env, col) == if scope == AnyField then None else Some(scope)
  {
    var i := TitleIndex(env, env.titles, col);
    if scope.CellAt? && Denotes(env, col, scope) {
      assert i == scope.idx;
    }
  }

  /** The texts of a row a scope looks at. */
  ghost predicate InScope(scope: Scope, r: Row, text: string) {
    match scope
    case Namespace => text == r.namespace
    case Name => text == r.name
    case CellAt(i) => i < |r.cells| && text == r.cells[i].text
    case AnyField => text == r.namespace || text == r.name || exists k :: 0 <= k < |r.cells| && text == r.cells[k].text
  }

  lemma FoundInScope(env: Env, t: Term, r: Row)
    ensures Found(env, t, r) <==> exists text :: InScope(t.scope, r, text) && Hit(env, t.matcher, text)
  {
  }

  /** A column name as it may be typed: nothing in it separates or inverts. */
  ghost predicate Typed(invert: bool, col: string) {
    Free(col, IsSpace) && ':' !in col && '|' !in col && (invert || NoBang(col))
  }

  /** A value that is just text. */
  ghost predicate Plainly(v: string) { IsWord(v) && '|' !in v && ':' !in v && v[0] != '~' }

  ghost predicate Says(env: Env, scope: Scope, r: Row, v: string) {
    exists text :: InScope(scope, r, text) && Contains(Lower(env, text), Lower(env, v))
  }

  lemma SaysIsFound(env: Env, invert: bool, scope: Scope, v: string, r: Row)
    ensures Satisfies(env, Term(invert, scope, Needles([Lower(env, v)])), r) <==> Says(env, scope, r, v) != invert
  {
    var t := Term(invert, scope, Needles([Lower(env, v)]));
    FoundInScope(env, t, r);
    forall text: string ensures Hit(env, t.matcher, text) <==> Contains(Lower(env, text), Lower(env, v)) {
      assert [Lower(env, v)][0] == Lower(env, v);
    }
  }

  lemma KeepsTerm(env: Env, filter: string, t: Term, r: Row)
    requires Parse(env, filter) == [t]
    ensures Keeps(env, filter, r) <==> Satisfies(env, t, r)
  {
    assert [t][0] == t;
  }

  /** "col:v" keeps the rows whose column contains v up to case, and "!col:v" the others. */
  lemma ColumnQuery(env: Env, invert: bool, col: string, scope: Scope, v: string, r: Row)
    requires Typed(invert, col) && Plainly(v) && Denotes(env, col, scope) && scope != AnyField
    ensures Keeps(env, (if invert then "!" else "") + (col + ":" + v), r) <==> Says(env, scope, r, v) != invert
  {
    ResolvesAsDenoted(env, col, scope);
    FreeWithColon(col);
    ParseIs(env, invert, Some(col), scope, v);
    KeepsTerm(env, TokenOf(invert, Some(col), v), Term(invert, scope, Needles([Lower(env, v)])), r);
    SaysIsFound(env, invert, scope, v, r);
  }

  lemma FreeWithColon(col: string)
    requires Free(col, IsSpace)
    ensures Free(col + ":", IsSpace)
  {
  }

  /** Spelled out for the namespace, the name and a titled column. */
  lemma NamespaceQuery(env: Env, invert: bool, col: string, v: string, r: Row)
    requires Typed(invert, col) && Plainly(v) && (Lower(env, col) == "ns" || Lower(env, col) == "namespace")
    ensures Keeps(env, (if invert then "!" else "") + (col + ":" + v), r) <==>
            Contains(Lower(env, r.namespace), Lower(env, v)) != invert
  {
    ColumnQuery(env, invert, col, Namespace, v, r);
    assert InScope(Namespace, r, r.namespace);
  }

  lemma NameQuery(env: Env, invert: bool, col: string, v: string, r: Row)
    requires Typed(invert, col) && Plainly(v) && Lower(env, col) == "name"
    ensures Keeps(env, (if invert then "!" else "") + (col + ":" + v), r) <==>
            Contains(Lower(env, r.name), Lower(env, v)) != invert
  {
    ColumnQuery(env, invert, col, Name, v, r);
    assert InScope(Name, r, r.name);
  }

  lemma CellQuery(env: Env, invert: bool, col: string, i: nat, v: string, r: Row)
    requires Typed(invert, col) && Plainly(v) && Denotes(env, col, CellAt(i))
    ensures Keeps(env, (if invert then "!" else "") + (col + ":" + v), r) <==>
            (i < |r.cells| && Contains(Lower(env, r.cells[i].text), Lower(env, v))) != invert
  {
    ColumnQuery(env, invert, col, CellAt(i), v, r);
    assert i < |r.cells| ==> InScope(CellAt(i), r, r.cells[i].text);
  }

  /** A bare value is looked for in the namespace, the name and every cell; so is a prefix that
      denotes no column, as literal text. */
  lemma AnywhereQuery(env: Env, invert: bool, v: string, r: Row)
    requires Plainly(v) && (invert || v[0] != '!')
    ensures Keeps(env, (if invert then "!" else "") + v, r) <==> Says(env, AnyField, r, v) != invert
  {
    LiteralQuery(env, invert, v, r);
  }

  lemma UnknownColumnQuery(env: Env, invert: bool, col: string, v: string, r: Row)
    requires Typed(invert, col) && Plainly(v) && Denotes(env, col, AnyField) && (col == "" || col[0] != '~')
    ensures Keeps(env, (if invert then "!" else "") + (col + ":" + v), r) <==> Says(env, AnyField, r, col + ":" + v) != invert
  {
    ResolvesAsDenoted(env, col, AnyField);
    CutIs(col, ':', v);
    LiteralQuery(env, invert, col + ":" + v, r);
  }

  lemma LiteralQuery(env: Env, invert: bool, text: string, r: Row)
    requires IsWord(text) && '|' !in text && text[0] != '~' && (invert || text[0] != '!')
    requires ScopeOf(env, text) == Scoped(AnyField, text)
    ensures Keeps(env, (if invert then "!" else "") + text, r) <==> Says(env, AnyField, r, text) != invert
  {
    assert "" + text == text;
    ParseIs(env, invert, None, AnyField, text);
    KeepsTerm(env, TokenOf(invert, None, text), Term(invert, AnyField, Needles([Lower(env, text)])), r);
    SaysIsFound(env, invert, AnyField, text, r);
  }

  ghost predicate Matches(env: Env, scope: Scope, r: Row, p: string) {
    exists text :: InScope(scope, r, text) && env.matches("(?i)" + p, text)
  }

  /** "col:~p" keeps the rows whose column matches the pattern, ignoring case, "!col:~p" the
      others; a pattern that does not compile asks for nothing. */
  lemma RegexQuery(env: Env, invert: bool, col: string, scope: Scope, p: string, r: Row)
    requires Typed(invert, col) && Free(p, IsSpace) && Denotes(env, col, scope) && scope != AnyField
    ensures Keeps(env, (if invert then "!" else "") + (col + ":" + ("~" + p)), r) <==>
            !env.compiles("(?i)" + p) || Matches(env, scope, r, p) != invert
  {
    ResolvesAsDenoted(env, col, scope);
    FreeWithColon(col);
    RegexValue(env, invert, Some(col), scope, p, r);
  }

  /** The same without a column, for a pattern without a colon. */
  lemma AnywhereRegexQuery(env: Env, invert: bool, p: string, r: Row)
    requires Free(p, IsSpace) && ':' !in p
    ensures Keeps(env, (if invert then "!" else "") + ("~" + p), r) <==>
            !env.compiles("(?i)" + p) || Matches(env, AnyField, r, p) != invert
  {
    assert "" + ("~" + p) == "~" + p;
    RegexValue(env, invert, None, AnyField, p, r);
  }

  lemma RegexValue(env: Env, invert: bool, col: Option<string>, scope: Scope, p: string, r: Row)
    requires Names(env, col, scope, "~" + p) && Free(p, IsSpace) && Free(Affix(col), IsSpace)
    requires invert || NoBang(Affix(col) + ("~" + p))
    ensures Keeps(env, TokenOf(invert, col, "~" + p), r) <==>
            !env.compiles("(?i)" + p) || Matches(env, scope, r, p) != invert
  {
    var v := "~" + p;
    assert v[1..] == p;
    ParseIs(env, invert, col, scope, v);
    if env.compiles("(?i)" + p) {
      var t := Term(invert, scope, Regex("(?i)" + p));
      KeepsTerm(env, TokenOf(invert, col, v), t, r);
      FoundInScope(env, t, r);
    }
  }

  lemma IgnoredToken(env: Env, tok: string, r: Row)
    requires IsWord(tok) && ParseToken(env, tok) == None
    ensures Keeps(env, tok, r)
  {
    FieldsOfWord(tok);
    ParseOne(env, tok);
  }

  lemma EmptyColumnReads(env: Env, col: string, scope: Scope)
    requires Denotes(env, col, scope) && scope != AnyField && ':' !in col
    ensures ScopeOf(env, col + ":").value == ""
  {
    ResolvesAsDenoted(env, col, scope);
    assert col + [':'] + "" == col + ":";
    CutIs(col, ':', "");
  }

  /** A column without a value asks for nothing, inverted or not; nor does a lone '!'. */
  lemma EmptyQuery(env: Env, invert: bool, col: string, scope: Scope, r: Row)
    requires Typed(invert, col) && Denotes(env, col, scope) && scope != AnyField
    ensures Keeps(env, (if invert then "!" else "") + (col + ":"), r)
  {
    EmptyColumnIsIgnored(env, invert, col, scope);
    IgnoredToken(env, (if invert then "!" else "") + (col + ":"), r);
  }

  lemma EmptyColumnIsIgnored(env: Env, invert: bool, col: string, scope: Scope)
    requires Typed(invert, col) && Denotes(env, col, scope) && scope != AnyField
    ensures var tok := (if invert then "!" else "") + (col + ":"); IsWord(tok) && ParseToken(env, tok) == None
  {
    EmptyColumnReads(env, col, scope);
    assert (col + ":")[0] == if col == "" then ':' else col[0];
    TokenBody(invert, col + ":");
    FreeWithColon(col);
  }

  lemma LoneBangQuery(env: Env, r: Row)
    ensures Keeps(env, "!", r)
  {
    IgnoredToken(env, "!", r);
  }

  // ---- alternatives that are empty or repeat the column ----------------------------------

  lemma CleanedOne(env: Env, x: string, scope: Scope)
    ensures var p := StripRepeatedScope(env, x, scope);
      Cleaned(env, [x], scope) == if p == "" then [] else [Lower(env, p)]
  {
    assert [x][1..] == [];
  }

  lemma SecondNeedles(env: Env, scope: Scope, v: string, x: string)
    requires Plainly(v) && '|' !in x
    ensures var p := StripRepeatedScope(env, x, scope);
      Alternatives(env, v + "|" + x, scope) == [Lower(env, v)] + if p == "" then [] else [Lower(env, p)]
  {
    assert (v + "|" + x)[|v|] == '|';
    SplitConcat(v, '|', x, IsBar);
    SplitOfFree(v, IsBar);
    SplitOfFree(x, IsBar);
    CleanedAppend(env, [v], [x], scope);
    CleanedOne(env, x, scope);
    CleanedOne(env, v, scope);
    assert StripRepeatedScope(env, v, scope) == v;
  }

  /** A value whose needles are known. */
  lemma NeedleQuery(env: Env, invert: bool, col: string, scope: Scope, value: string, r: Row)
    requires Typed(invert, col) && Denotes(env, col, scope) && scope != AnyField
    requires IsWord(value) && value[0] != '~' && Alternatives(env, value, scope) != []
    ensures var ns := Alternatives(env, value, scope);
      Keeps(env, (if invert then "!" else "") + (col + ":" + value), r) <==>
      (exists k :: 0 <= k < |ns| && Found(env, Term(false, scope, Needles([ns[k]])), r)) != invert
  {
    var ns := Alternatives(env, value, scope);
    ResolvesAsDenoted(env, col, scope);
    FreeWithColon(col);
    ParseIs(env, invert, Some(col), scope, value);
    KeepsOne(env, TokenOf(invert, Some(col), value), Term(invert, scope, Needles(ns)), r);
    FoundIsUnion(env, scope, ns, r);
  }

  lemma FoundSays(env: Env, scope: Scope, v: string, r: Row)
    ensures Found(env, Term(false, scope, Needles([Lower(env, v)])), r) <==> Says(env, scope, r, v)
  {
    SaysIsFound(env, false, scope, v, r);
  }

  /** "ns:a|" keeps the rows of a: while the second value is not typed yet nothing changes. */
  lemma EmptyAlternativeQuery(env: Env, invert: bool, col: string, scope: Scope, v: string, r: Row)
    requires Typed(invert, col) && Denotes(env, col, scope) && scope != AnyField && Plainly(v)
    ensures Keeps(env, (if invert then "!" else "") + (col + ":" + (v + "|")), r) <==> Says(env, scope, r, v) != invert
  {
    BarredValue(env, scope, v);
    NeedleQuery(env, invert, col, scope, v + "|", r);
    FoundSays(env, scope, v, r);
    assert [Lower(env, v)][0] == Lower(env, v);
  }

  lemma BarredValue(env: Env, scope: Scope, v: string)
    requires Plainly(v)
    ensures Alternatives(env, v + "|", scope) == [Lower(env, v)] && IsWord(v + "|") && (v + "|")[0] == v[0]
  {
    assert v + "|" + "" == v + "|";
    SecondNeedles(env, scope, v, "");
    BarIsWord(v, "");
  }

  /** "ns:a|b" keeps the rows of either. */
  lemma AlternativeQuery(env: Env, invert: bool, col: string, scope: Scope, v: string, w: string, r: Row)
    requires Typed(invert, col) && Denotes(env, col, scope) && scope != AnyField && Plainly(v) && Plainly(w)
    ensures Keeps(env, (if invert then "!" else "") + (col + ":" + (v + "|" + w)), r) <==>
            (Says(env, scope, r, v) || Says(env, scope, r, w)) != invert
  {
    SecondNeedles(env, scope, v, w);
    BarIsWord(v, w);
    NeedleQuery(env, invert, col, scope, v + "|" + w, r);
    EitherNeedle(env, scope, v, w, r);
  }

  /** And so does "ns:a|ns:b", where the column is repeated under any of its names. */
  lemma RepeatedColumnQuery(env: Env, invert: bool, col: string, scope: Scope, again: string, v: string, w: string, r: Row)
    requires Typed(invert, col) && Denotes(env, col, scope) && scope != AnyField && Plainly(v) && Plainly(w)
    requires Typed(true, again) && Denotes(env, again, scope)
    ensures Keeps(env, (if invert then "!" else "") + (col + ":" + (v + "|" + (again + ":" + w))), r) <==>
            (Says(env, scope, r, v) || Says(env, scope, r, w)) != invert
  {
    var x := again + ":" + w;
    ResolvesAsDenoted(env, again, scope);
    CutIs(again, ':', w);
    assert StripRepeatedScope(env, x, scope) == w;
    SecondNeedles(env, scope, v, x);
    FreeWithColon(again);
    BarIsWord(v, x);
    NeedleQuery(env, invert, col, scope, v + "|" + x, r);
    EitherNeedle(env, scope, v, w, r);
  }

  lemma BarIsWord(v: string, x: string)
    requires IsWord(v) && Free(x, IsSpace)
    ensures IsWord(v + "|" + x) && (v + "|" + x)[0] == v[0]
  {
  }

  lemma EitherNeedle(env: Env, scope: Scope, v: string, w: string, r: Row)
    ensures var ns := [Lower(env, v)] + [Lower(env, w)];
      (exists k :: 0 <= k < |ns| && Found(env, Term(false, scope, Needles([ns[k]])), r)) <==>
      Says(env, scope, r, v) || Says(env, scope, r, w)
  {
    var ns := [Lower(env, v)] + [Lower(env, w)];
    FoundSays(env, scope, v, r);
    FoundSays(env, scope, w, r);
    assert ns[0] == Lower(env, v) && ns[1] == Lower(env, w) && |ns| == 2;
  }
}
