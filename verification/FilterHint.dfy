/** The hint offered for an empty result (unsatisfiableHint, internal/view/resource.go):
    several plain terms on one column are rewritten into one alternation. What the
    rewritten query means, compared with the terms it replaces. */
module FilterHint {
  import opened Text
  import opened Rows
  import opened Filter

  // ---- grouping the raw tokens -----------------------------------------------

  datatype Claim = Claim(scope: Scope, col: string, value: string)

  /** A token the hint may join: not inverted, scoped, with a plain value. */
  function ClaimOf(env: Env, tok: string): (r: Option<Claim>) {
    if HasPrefix(tok, "!") then None
    else
      match Cut(tok, ':')
      case Whole => None
      case Parts(col, val) =>
        match ResolveScope(env, col)
        case None => None
        case Some(s) => if val == "" || val[0] == '~' then None else Some(Claim(s, col, val))
  }

  function ClaimsOf(env: Env, toks: seq<string>): (cs: seq<Option<Claim>>)
    ensures |cs| == |toks| && forall k :: 0 <= k < |toks| ==> cs[k] == ClaimOf(env, toks[k])
  {
    seq(|toks|, i requires 0 <= i < |toks| => ClaimOf(env, toks[i]))
  }

  predicate IsFor(c: Option<Claim>, scope: Scope) { c.Some? && c.value.scope == scope }

  function ValueIn(c: Option<Claim>, scope: Scope): seq<string> {
    if IsFor(c, scope) then [c.value.value] else []
  }

  /** The values claimed for a scope, in order. */
  function ValuesFor(cs: seq<Option<Claim>>, scope: Scope): seq<string> {
    if cs == [] then [] else ValueIn(cs[0], scope) + ValuesFor(cs[1..], scope)
  }

  /** The first claim of a scope, or |cs|. */
  function FirstClaim(cs: seq<Option<Claim>>, scope: Scope): (i: nat)
    ensures i <= |cs| && (i < |cs| ==> IsFor(cs[i], scope))
    ensures forall k :: 0 <= k < i ==> !IsFor(cs[k], scope)
  {
    if cs == [] || IsFor(cs[0], scope) then 0 else 1 + FirstClaim(cs[1..], scope)
  }

  lemma {:induction false} ValuesAppend(a: seq<Option<Claim>>, b: seq<Option<Claim>>, scope: Scope)
    ensures ValuesFor(a + b, scope) == ValuesFor(a, scope) + ValuesFor(b, scope)
  {
    if a == [] {
      assert a + b == b;
    } else {
      Uncons(a, b);
      ValuesAppend(a[1..], b, scope);
      Assoc(ValueIn(a[0], scope), ValuesFor(a[1..], scope), ValuesFor(b, scope));
    }
  }

  lemma ValuesSnoc(cs: seq<Option<Claim>>, n: nat, scope: Scope)
    requires n < |cs|
    ensures ValuesFor(cs[..n + 1], scope) == ValuesFor(cs[..n], scope) + ValueIn(cs[n], scope)
  {
    assert cs[..n + 1] == cs[..n] + [cs[n]] && [cs[n]][1..] == [];
    ValuesAppend(cs[..n], [cs[n]], scope);
  }

  datatype Group = Group(scope: Scope, col: string, values: seq<string>)

  /** g holds all the values the first n claims give for its scope, under the column
      name its first claim used. */
  ghost predicate GroupIs(cs: seq<Option<Claim>>, n: nat, g: Group)
    requires n <= |cs|
  {
    var i := FirstClaim(cs, g.scope);
    i < n && cs[i].value.col == g.col && g.values == ValuesFor(cs[..n], g.scope)
  }

  ghost predicate GroupsAre(cs: seq<Option<Claim>>, n: nat, groups: seq<Group>)
    requires n <= |cs|
  {
    && (forall i :: 0 <= i < |groups| ==> GroupIs(cs, n, groups[i]))
    && (forall i, j :: 0 <= i < j < |groups| ==>
          FirstClaim(cs, groups[i].scope) < FirstClaim(cs, groups[j].scope))
  }

  ghost predicate IndexIs(cs: seq<Option<Claim>>, n: nat, groups: seq<Group>, index: map<Scope, nat>) {
    && (forall s :: s in index ==> index[s] < |groups| && groups[index[s]].scope == s)
    && (forall s :: FirstClaim(cs, s) < n ==> s in index)
  }

  lemma GroupSkips(cs: seq<Option<Claim>>, n: nat, g: Group)
    requires n < |cs| && GroupIs(cs, n, g) && !IsFor(cs[n], g.scope)
    ensures GroupIs(cs, n + 1, g)
  {
    ValuesSnoc(cs, n, g.scope);
  }

  lemma GroupExtends(cs: seq<Option<Claim>>, n: nat, g: Group)
    requires n < |cs| && GroupIs(cs, n, g) && IsFor(cs[n], g.scope)
    ensures GroupIs(cs, n + 1, g.(values := g.values + [cs[n].value.value]))
  {
    ValuesSnoc(cs, n, g.scope);
  }

  lemma {:induction false} NoValuesBefore(cs: seq<Option<Claim>>, n: nat, scope: Scope)
    requires n <= |cs| && n <= FirstClaim(cs, scope)
    ensures ValuesFor(cs[..n], scope) == []
  {
    if n > 0 {
      NoValuesBefore(cs, n - 1, scope);
      ValuesSnoc(cs, n - 1, scope);
    }
  }

  lemma GroupStarts(cs: seq<Option<Claim>>, n: nat, c: Claim)
    requires n < |cs| && cs[n] == Some(c) && n <= FirstClaim(cs, c.scope)
    ensures GroupIs(cs, n + 1, Group(c.scope, c.col, [c.value])) && FirstClaim(cs, c.scope) == n
  {
    NoValuesBefore(cs, n, c.scope);
    ValuesSnoc(cs, n, c.scope);
    assert FirstClaim(cs, c.scope) == n;
  }

  /** A token that claims nothing leaves the groups as they are. */
  lemma SkipRound(cs: seq<Option<Claim>>, n: nat, groups: seq<Group>, index: map<Scope, nat>)
    requires n < |cs| && cs[n].None? && GroupsAre(cs, n, groups) && IndexIs(cs, n, groups, index)
    ensures GroupsAre(cs, n + 1, groups) && IndexIs(cs, n + 1, groups, index)
  {
    forall i | 0 <= i < |groups| ensures GroupIs(cs, n + 1, groups[i]) {
      GroupSkips(cs, n, groups[i]);
    }
  }

  /** A value for a known column joins its group. */
  lemma ExtendRound(cs: seq<Option<Claim>>, n: nat, groups: seq<Group>, index: map<Scope, nat>, i: nat)
    requires n < |cs| && GroupsAre(cs, n, groups) && IndexIs(cs, n, groups, index)
    requires i < |groups| && IsFor(cs[n], groups[i].scope)
    ensures var more := groups[i := groups[i].(values := groups[i].values + [cs[n].value.value])];
      GroupsAre(cs, n + 1, more) && IndexIs(cs, n + 1, more, index)
  {
    var g := groups[i].(values := groups[i].values + [cs[n].value.value]);
    var more := groups[i := g];
    forall k | 0 <= k < |more| ensures GroupIs(cs, n + 1, more[k]) && more[k].scope == groups[k].scope {
      if k == i {
        GroupExtends(cs, n, groups[i]);
      } else {
        GroupSkips(cs, n, groups[k]);
      }
    }
    forall s | FirstClaim(cs, s) < n + 1 ensures s in index {
      assert FirstClaim(cs, groups[i].scope) < n;
    }
  }

  /** A value for a new column opens a group. */
  lemma StartRound(cs: seq<Option<Claim>>, n: nat, groups: seq<Group>, index: map<Scope, nat>, c: Claim)
    requires n < |cs| && GroupsAre(cs, n, groups) && IndexIs(cs, n, groups, index)
    requires cs[n] == Some(c) && c.scope !in index
    ensures var more := groups + [Group(c.scope, c.col, [c.value])];
      GroupsAre(cs, n + 1, more) && IndexIs(cs, n + 1, more, index[c.scope := |groups|])
  {
    var more := groups + [Group(c.scope, c.col, [c.value])];
    GroupStarts(cs, n, c);
    forall k | 0 <= k < |more| ensures GroupIs(cs, n + 1, more[k]) {
      if k < |groups| {
        assert more[k] == groups[k];
        GroupSkips(cs, n, groups[k]);
      }
    }
    forall i, j | 0 <= i < j < |more|
      ensures FirstClaim(cs, more[i].scope) < FirstClaim(cs, more[j].scope)
    {
      assert more[i] == groups[i];
      assert GroupIs(cs, n, groups[i]);
      assert j < |groups| ==> more[j] == groups[j];
    }
    forall s | FirstClaim(cs, s) < n + 1 ensures s == c.scope || s in index {
    }
  }

  ghost predicate Grouping(cs: seq<Option<Claim>>, n: nat, groups: seq<Group>, index: map<Scope, nat>) {
    n <= |cs| && GroupsAre(cs, n, groups) && IndexIs(cs, n, groups, index)
  }

  /** One round of the grouping loop. */
  method AddClaim(ghost cs: seq<Option<Claim>>, ghost n: nat, claim: Option<Claim>,
                  groups: seq<Group>, index: map<Scope, nat>)
    returns (groups': seq<Group>, index': map<Scope, nat>)
    requires Grouping(cs, n, groups, index) && n < |cs| && claim == cs[n]
    ensures Grouping(cs, n + 1, groups', index')
  {
    groups', index' := groups, index;
    if claim.None? {
      SkipRound(cs, n, groups, index);
    } else if claim.value.scope in index {
      var i := index[claim.value.scope];
      ExtendRound(cs, n, groups, index, i);
      groups' := groups[i := groups[i].(values := groups[i].values + [claim.value.value])];
    } else {
      var c := claim.value;
      StartRound(cs, n, groups, index, c);
      index' := index[c.scope := |groups|];
      groups' := groups + [Group(c.scope, c.col, [c.value])];
    }
  }

  /** unsatisfiableHint's first loop, one round per token. */
  method GroupClaims(cs: seq<Option<Claim>>) returns (groups: seq<Group>, ghost index: map<Scope, nat>)
    ensures Grouping(cs, |cs|, groups, index)
  {
    groups := [];
    var at: map<Scope, nat> := map[];
    for n := 0 to |cs|
      invariant Grouping(cs, n, groups, at)
    {
      groups, at := AddClaim(cs, n, cs[n], groups, at);
    }
    index := at;
  }

  /** g gathers at least two values of one column of the filter. */
  ghost predicate Suggests(env: Env, filter: string, g: Group) {
    && GroupIs(ClaimsOf(env, Fields(filter)), |Fields(filter)|, g)
    && |g.values| >= 2
  }

  lemma PluralIsIndexed(cs: seq<Option<Claim>>, groups: seq<Group>, index: map<Scope, nat>, s: Scope)
    requires Grouping(cs, |cs|, groups, index) && ValuesFor(cs, s) != []
    ensures s in index && index[s] < |groups|
    ensures groups[index[s]].scope == s && groups[index[s]].values == ValuesFor(cs, s)
  {
    assert cs[..|cs|] == cs;
    if FirstClaim(cs, s) == |cs| {
      NoValuesBefore(cs, |cs|, s);
    }
    assert GroupIs(cs, |cs|, groups[index[s]]);
  }

  /** unsatisfiableHint's second loop: the first group with two values or more. */
  method FirstPlural(groups: seq<Group>) returns (i: nat)
    ensures i <= |groups| && (i < |groups| ==> |groups[i].values| >= 2)
    ensures forall k :: 0 <= k < i ==> |groups[k].values| < 2
  {
    for n := 0 to |groups|
      invariant forall k :: 0 <= k < n ==> |groups[k].values| < 2
    {
      if |groups[n].values| >= 2 {
        return n;
      }
    }
    return |groups|;
  }

  lemma FirstPluralIsEarliest(cs: seq<Option<Claim>>, groups: seq<Group>, i: nat, j: nat)
    requires GroupsAre(cs, |cs|, groups) && j < |groups| && |groups[j].values| >= 2
    requires i <= |groups| && forall k :: 0 <= k < i ==> |groups[k].values| < 2
    ensures i <= j && FirstClaim(cs, groups[i].scope) <= FirstClaim(cs, groups[j].scope)
  {
  }

  /** unsatisfiableHint: the earliest column with two or more plain terms, if any. */
  method UnsatisfiableHint(env: Env, filter: string) returns (r: Option<Group>)
    ensures r.Some? ==> Suggests(env, filter, r.value)
    ensures forall s :: |ValuesFor(ClaimsOf(env, Fields(filter)), s)| >= 2 ==>
      && r.Some?
      && FirstClaim(ClaimsOf(env, Fields(filter)), r.value.scope) <= FirstClaim(ClaimsOf(env, Fields(filter)), s)
  {
    var cs := ClaimsOf(env, Fields(filter));
    var groups, index := GroupClaims(cs);
    var i := FirstPlural(groups);
    r := if i < |groups| then Some(groups[i]) else None;
    forall s | |ValuesFor(cs, s)| >= 2
      ensures r.Some? && FirstClaim(cs, r.value.scope) <= FirstClaim(cs, s)
    {
      PluralIsIndexed(cs, groups, index, s);
      FirstPluralIsEarliest(cs, groups, i, index[s]);
    }
  }

  /** The rewritten query the hint tells the user to try. */
  function Query(g: Group): string { TokenOf(false, Some(g.col), Join(g.values, "|")) }

  // ---- the grouped terms among the parsed ones -------------------------------

  predicate Grouped(t: Term, scope: Scope) { !t.invert && t.scope == scope && t.matcher.Needles? }

  function NeedlesOf(terms: seq<Term>, scope: Scope): seq<string> {
    if terms == [] then []
    else (if Grouped(terms[0], scope) then terms[0].matcher.alts else []) + NeedlesOf(terms[1..], scope)
  }

  /** What a claiming token parses to; a token that claims nothing parses to no grouped term. */
  lemma ClaimParses(env: Env, tok: string, scope: Scope)
    requires scope != AnyField
    ensures var t, c := ParseToken(env, tok), ClaimOf(env, tok);
      if IsFor(c, scope) then
        var alts := Alternatives(env, c.value.value, scope);
        t == if alts == [] then None else Some(Term(false, scope, Needles(alts)))
      else t.Some? ==> !Grouped(t.value, scope)
  {
  }

  lemma {:induction false} NeedlesOfAppend(a: seq<Term>, b: seq<Term>, scope: Scope)
    ensures NeedlesOf(a + b, scope) == NeedlesOf(a, scope) + NeedlesOf(b, scope)
  {
    if a == [] {
      assert a + b == b;
    } else {
      Uncons(a, b);
      NeedlesOfAppend(a[1..], b, scope);
      Assoc(if Grouped(a[0], scope) then a[0].matcher.alts else [], NeedlesOf(a[1..], scope), NeedlesOf(b, scope));
    }
  }

  lemma NeedlesOfOne(t: Option<Term>, scope: Scope)
    ensures NeedlesOf(AsSeq(t), scope) == if t.Some? && Grouped(t.value, scope) then t.value.matcher.alts else []
  {
    assert t.Some? ==> [t.value][1..] == [];
  }

  lemma {:induction false} AllNeedlesAppend(env: Env, a: seq<string>, b: seq<string>, scope: Scope)
    ensures AllNeedles(env, a + b, scope) == AllNeedles(env, a, scope) + AllNeedles(env, b, scope)
  {
    if a == [] {
      assert a + b == b;
    } else {
      Uncons(a, b);
      AllNeedlesAppend(env, a[1..], b, scope);
      Assoc(Alternatives(env, a[0], scope), AllNeedles(env, a[1..], scope), AllNeedles(env, b, scope));
    }
  }

  lemma AllNeedlesOfOne(env: Env, v: string, scope: Scope)
    ensures AllNeedles(env, [v], scope) == Alternatives(env, v, scope)
  {
    assert [v][1..] == [];
  }

  lemma TokenNeedles(env: Env, tok: string, scope: Scope)
    requires scope != AnyField
    ensures NeedlesOf(AsSeq(ParseToken(env, tok)), scope)
         == AllNeedles(env, ValueIn(ClaimOf(env, tok), scope), scope)
  {
    var t, c := ParseToken(env, tok), ClaimOf(env, tok);
    ClaimParses(env, tok, scope);
    NeedlesOfOne(t, scope);
    if IsFor(c, scope) {
      AllNeedlesOfOne(env, c.value.value, scope);
    }
  }

  lemma ClaimsTail(env: Env, toks: seq<string>)
    requires toks != []
    ensures ClaimsOf(env, toks)[1..] == ClaimsOf(env, toks[1..])
  {
  }

  /** The grouped parsed terms carry exactly the needles of the claimed values. */
  lemma {:induction false} NeedlesAreClaimed(env: Env, toks: seq<string>, scope: Scope)
    requires scope != AnyField
    ensures NeedlesOf(ParseTokens(env, toks), scope)
         == AllNeedles(env, ValuesFor(ClaimsOf(env, toks), scope), scope)
  {
    if toks != [] {
      NeedlesAreClaimed(env, toks[1..], scope);
      ClaimsTail(env, toks);
      TokenNeedles(env, toks[0], scope);
      NeedlesOfAppend(AsSeq(ParseToken(env, toks[0])), ParseTokens(env, toks[1..]), scope);
      AllNeedlesAppend(env, ValueIn(ClaimOf(env, toks[0]), scope), ValuesFor(ClaimsOf(env, toks[1..]), scope), scope);
    }
  }

  ghost predicate SomeGroupedFound(env: Env, terms: seq<Term>, scope: Scope, r: Row) {
    exists k :: 0 <= k < |terms| && Grouped(terms[k], scope) && Found(env, terms[k], r)
  }

  lemma FoundAppend(env: Env, scope: Scope, a: seq<string>, b: seq<string>, r: Row)
    ensures Found(env, Term(false, scope, Needles(a + b)), r) <==>
            Found(env, Term(false, scope, Needles(a)), r) || Found(env, Term(false, scope, Needles(b)), r)
  {
    var ts := Texts(scope, r);
    FoundInTexts(env, Term(false, scope, Needles(a + b)), r);
    FoundInTexts(env, Term(false, scope, Needles(a)), r);
    FoundInTexts(env, Term(false, scope, Needles(b)), r);
    forall j | 0 <= j < |ts|
      ensures Hit(env, Needles(a + b), ts[j]) <==> Hit(env, Needles(a), ts[j]) || Hit(env, Needles(b), ts[j])
    {
      HitsAppend(a, b, Lower(env, ts[j]));
    }
  }

  lemma NothingFound(env: Env, scope: Scope, r: Row)
    ensures !Found(env, Term(false, scope, Needles([])), r)
  {
  }

  lemma SomeGroupedCons(env: Env, terms: seq<Term>, scope: Scope, r: Row)
    requires terms != []
    ensures SomeGroupedFound(env, terms, scope, r) <==>
            (Grouped(terms[0], scope) && Found(env, terms[0], r)) || SomeGroupedFound(env, terms[1..], scope, r)
  {
    var rest := terms[1..];
    if SomeGroupedFound(env, rest, scope, r) {
      var k :| 0 <= k < |rest| && Grouped(rest[k], scope) && Found(env, rest[k], r);
      assert terms[k + 1] == rest[k];
    }
    if SomeGroupedFound(env, terms, scope, r) {
      var k :| 0 <= k < |terms| && Grouped(terms[k], scope) && Found(env, terms[k], r);
      assert k > 0 ==> rest[k - 1] == terms[k];
    }
  }

  /** Some grouped term is found exactly where one term with all their needles is. */
  lemma {:induction false} SomeGroupedIsUnion(env: Env, terms: seq<Term>, scope: Scope, r: Row)
    ensures SomeGroupedFound(env, terms, scope, r) <==>
            Found(env, Term(false, scope, Needles(NeedlesOf(terms, scope))), r)
  {
    NothingFound(env, scope, r);
    if terms != [] {
      SomeGroupedIsUnion(env, terms[1..], scope, r);
      SomeGroupedCons(env, terms, scope, r);
      var own := if Grouped(terms[0], scope) then terms[0].matcher.alts else [];
      FoundAppend(env, scope, own, NeedlesOf(terms[1..], scope), r);
      assert Grouped(terms[0], scope) ==> terms[0] == Term(false, scope, Needles(own));
    }
  }

  // ---- reading the suggested query back --------------------------------------

  lemma {:induction false} ValuesAreWords(env: Env, toks: seq<string>, scope: Scope)
    requires forall k :: 0 <= k < |toks| ==> IsWord(toks[k])
    ensures forall v :: v in ValuesFor(ClaimsOf(env, toks), scope) ==> IsWord(v) && v[0] != '~'
  {
    if toks != [] {
      ValuesAreWords(env, toks[1..], scope);
      ClaimsTail(env, toks);
      if ClaimOf(env, toks[0]).Some? {
        ClaimIsClear(env, toks[0]);
      }
    }
  }

  lemma PiecesAreFree(a: string, c: char, b: string)
    requires Free(a + [c] + b, IsSpace)
    ensures Free(a + [c], IsSpace) && Free(b, IsSpace)
  {
    var s := a + [c] + b;
    assert forall k :: 0 <= k < |a + [c]| ==> (a + [c])[k] == s[k];
    assert forall k :: 0 <= k < |b| ==> b[k] == s[|a| + 1 + k];
  }

  lemma ClaimIsClear(env: Env, tok: string)
    requires IsWord(tok) && ClaimOf(env, tok).Some?
    ensures var c := ClaimOf(env, tok).value;
      && IsWord(c.value) && c.value[0] != '~'
      && ':' !in c.col && ResolveScope(env, c.col) == Some(c.scope)
      && Free(Affix(Some(c.col)), IsSpace) && NoBang(c.col)
  {
    var c := ClaimOf(env, tok).value;
    assert tok == c.col + [':'] + c.value;
    PiecesAreFree(c.col, ':', c.value);
    NoBangFront(c.col, [':'] + c.value);
    Assoc(c.col, [':'], c.value);
  }

  lemma NoBangFront(a: string, b: string)
    requires !HasPrefix(a + b, "!")
    ensures NoBang(a)
  {
    if a != "" {
      assert (a + b)[..1] == [a[0]];
    }
  }

  /** The shape of a suggestion. */
  lemma SuggestionIsClear(env: Env, filter: string, g: Group)
    requires Suggests(env, filter, g)
    ensures g.scope != AnyField && g.values == ValuesFor(ClaimsOf(env, Fields(filter)), g.scope)
    ensures ':' !in g.col && ResolveScope(env, g.col) == Some(g.scope)
    ensures Free(Affix(Some(g.col)), IsSpace) && NoBang(g.col)
    ensures forall k :: 0 <= k < |g.values| ==> IsWord(g.values[k]) && g.values[k][0] != '~'
  {
    var toks := Fields(filter);
    FieldsAreWords(filter);
    var cs := ClaimsOf(env, toks);
    assert cs[..|cs|] == cs;
    ClaimIsClear(env, toks[FirstClaim(cs, g.scope)]);
    ValuesAreWords(env, toks, g.scope);
  }

  /** The query parses to one term on the group's column, with the values' needles as
      alternatives, or to nothing when no value has a non-empty alternative. */
  lemma QueryParses(env: Env, filter: string, g: Group)
    requires Suggests(env, filter, g)
    ensures var ns := JoinedNeedles(env, g.values, g.scope);
      Parse(env, Query(g)) == if ns == [] then [] else [Term(false, g.scope, Needles(ns))]
  {
    SuggestionIsClear(env, filter, g);
    JoinKeepsClear(g.values);
    JoinedAlternatives(env, g.values, g.scope);
    var joined := Join(g.values, "|");
    assert NoBang(Affix(Some(g.col)) + joined);
    ParseIs(env, false, Some(g.col), g.scope, joined);
  }

  // ---- the query contains the conjunction ------------------------------------

  /** Every string of a has some string of b inside it. */
  ghost predicate Covered(a: seq<string>, b: seq<string>) {
    forall k :: 0 <= k < |a| ==> HitsAny(b, a[k])
  }

  lemma SliceOfSlice(a: string, i: nat, j: nat, k: nat, l: nat)
    requires i <= j <= |a| && k <= l <= j - i
    ensures a[i..j][k..l] == a[i + k..i + l]
  {
    var b := a[i..j];
    assert forall m :: 0 <= m < l - k ==> b[k..l][m] == b[k + m] == a[i + k + m];
  }

  lemma ContainsTrans(a: string, b: string, c: string)
    requires Contains(a, b) && Contains(b, c)
    ensures Contains(a, c)
  {
    var i: nat :| i <= |a| && OccursAt(a, b, i);
    var j: nat :| j <= |b| && OccursAt(b, c, j);
    SliceOfSlice(a, i, i + |b|, j, j + |c|);
    assert OccursAt(a, c, i + j);
  }

  lemma CoveredHits(a: seq<string>, b: seq<string>, low: string)
    requires Covered(a, b) && HitsAny(a, low)
    ensures HitsAny(b, low)
  {
    var k :| 0 <= k < |a| && Contains(low, a[k]);
    assert HitsAny(b, a[k]);
    var j :| 0 <= j < |b| && Contains(a[k], b[j]);
    ContainsTrans(low, a[k], b[j]);
  }

  lemma CoveredFound(env: Env, scope: Scope, a: seq<string>, b: seq<string>, r: Row)
    requires Covered(a, b) && Found(env, Term(false, scope, Needles(a)), r)
    ensures Found(env, Term(false, scope, Needles(b)), r)
  {
    var ts := Texts(scope, r);
    FoundInTexts(env, Term(false, scope, Needles(a)), r);
    FoundInTexts(env, Term(false, scope, Needles(b)), r);
    var j :| 0 <= j < |ts| && Hit(env, Needles(a), ts[j]);
    CoveredHits(a, b, Lower(env, ts[j]));
    assert Hit(env, Needles(b), ts[j]);
  }

  lemma CoveredSelf(a: seq<string>)
    ensures Covered(a, a)
  {
    forall k | 0 <= k < |a| ensures HitsAny(a, a[k]) {
      ContainsSelf(a[k]);
    }
  }

  lemma CoveredMore(a: seq<string>, b: seq<string>, post: seq<string>)
    requires Covered(a, b)
    ensures Covered(a, b + post)
  {
    forall k | 0 <= k < |a| ensures HitsAny(b + post, a[k]) {
      HitsAppend(b, post, a[k]);
    }
  }

  lemma SuffixOccurs(env: Env, v: string, p: string)
    requires |p| <= |v| && v[|v| - |p|..] == p
    ensures Contains(Lower(env, v), Lower(env, p))
  {
    var n := |v| - |p|;
    assert forall k :: 0 <= k < |p| ==> p[k] == v[n + k];
    assert Lower(env, v)[n..n + |p|] == Lower(env, p);
    assert OccursAt(Lower(env, v), Lower(env, p), n);
  }

  /** What stripping and lowercasing leave of a value occurs in the lowercased value. */
  lemma StrippedOccurs(env: Env, v: string, scope: Scope)
    ensures Contains(Lower(env, v), Lower(env, StripRepeatedScope(env, v, scope)))
  {
    var p := StripRepeatedScope(env, v, scope);
    SuffixOccurs(env, v, p);
  }

  /** Alone, a value's needles contain the ones it has inside an alternation. */
  lemma AloneIsCovered(env: Env, v: string, scope: Scope)
    requires Cleaned(env, SplitBy(v, IsBar), scope) != []
    ensures Alternatives(env, v, scope) != []
    ensures Covered(Alternatives(env, v, scope), Cleaned(env, SplitBy(v, IsBar), scope))
  {
    if '|' in v {
      CoveredSelf(Alternatives(env, v, scope));
    } else {
      SplitOfFree(v, IsBar);
      assert [v][1..] == [];
      StrippedOccurs(env, v, scope);
      var p := StripRepeatedScope(env, v, scope);
      assert Cleaned(env, [v], scope) == [Lower(env, p)];
      assert [Lower(env, p)][0] == Lower(env, p);
    }
  }

  /** Some value has a needle when the alternation has one, and its own needles contain
      needles of the alternation. */
  lemma {:induction false} SomeValueCovered(env: Env, vs: seq<string>, scope: Scope) returns (v: string)
    requires JoinedNeedles(env, vs, scope) != []
    ensures v in vs && Alternatives(env, v, scope) != []
    ensures Covered(Alternatives(env, v, scope), JoinedNeedles(env, vs, scope))
  {
    v := vs[0];
    var own, rest := Cleaned(env, SplitBy(v, IsBar), scope), JoinedNeedles(env, vs[1..], scope);
    if own != [] {
      AloneIsCovered(env, v, scope);
      CoveredMore(Alternatives(env, v, scope), own, rest);
    } else {
      assert own + rest == rest;
      v := SomeValueCovered(env, vs[1..], scope);
    }
  }

  /** A claimed value with a needle is one of the parsed terms. */
  lemma {:induction false} ValueIsTerm(env: Env, toks: seq<string>, scope: Scope, v: string)
    requires scope != AnyField && v in ValuesFor(ClaimsOf(env, toks), scope)
    requires Alternatives(env, v, scope) != []
    ensures Term(false, scope, Needles(Alternatives(env, v, scope))) in ParseTokens(env, toks)
  {
    ClaimsTail(env, toks);
    if v in ValueIn(ClaimOf(env, toks[0]), scope) {
      ClaimParses(env, toks[0], scope);
    } else {
      ValueIsTerm(env, toks[1..], scope, v);
    }
  }

  /** The suggested query keeps every row the original conjunction kept, always. */
  lemma QueryContainsConjunction(env: Env, filter: string, g: Group, r: Row)
    requires Suggests(env, filter, g) && Keeps(env, filter, r)
    ensures Keeps(env, Query(g), r)
  {
    var toks := Fields(filter);
    var ns := JoinedNeedles(env, g.values, g.scope);
    QueryParses(env, filter, g);
    SuggestionIsClear(env, filter, g);
    if ns != [] {
      var v := SomeValueCovered(env, g.values, g.scope);
      var alts := Alternatives(env, v, g.scope);
      ValueIsTerm(env, toks, g.scope, v);
      var t := Term(false, g.scope, Needles(alts));
      var i :| 0 <= i < |Parse(env, filter)| && Parse(env, filter)[i] == t;
      assert Satisfies(env, t, r);
      CoveredFound(env, g.scope, alts, ns, r);
      KeepsOne(env, Query(g), Term(false, g.scope, Needles(ns)), r);
    }
  }

  // ---- when the query means exactly "one of the terms" -----------------------

  function Total(ns: seq<string>): nat { if ns == [] then 0 else |ns[0]| + Total(ns[1..]) }

  lemma {:induction false} TotalAppend(a: seq<string>, b: seq<string>)
    ensures Total(a + b) == Total(a) + Total(b)
  {
    if a == [] {
      assert a + b == b;
    } else {
      Uncons(a, b);
      TotalAppend(a[1..], b);
    }
  }

  /** A value without '|' that starts with a prefix naming its own column: alone it is
      taken literally, inside an alternation the prefix is removed. */
  predicate RepeatsScope(env: Env, v: string, scope: Scope) {
    '|' !in v && StripRepeatedScope(env, v, scope) != v
  }

  lemma OneValueNeedles(env: Env, v: string, scope: Scope)
    requires v != ""
    ensures var alone, joined := Alternatives(env, v, scope), Cleaned(env, SplitBy(v, IsBar), scope);
      if RepeatsScope(env, v, scope) then Total(joined) < Total(alone) else joined == alone
  {
    if '|' !in v {
      SplitOfFree(v, IsBar);
      assert [v][1..] == [];
      assert [Lower(env, v)][1..] == [];
      var p := StripRepeatedScope(env, v, scope);
      assert [Lower(env, p)][1..] == [];
    }
  }

  predicate NoneRepeats(env: Env, vs: seq<string>, scope: Scope): (b: bool)
    ensures b <==> forall k :: 0 <= k < |vs| ==> !RepeatsScope(env, vs[k], scope)
  {
    vs == [] || (!RepeatsScope(env, vs[0], scope) && NoneRepeats(env, vs[1..], scope))
  }

  /** The alternation's needles are no longer in all than the single terms', and as long
      only when they are the same. */
  lemma {:induction false} JoinedIsNoLonger(env: Env, vs: seq<string>, scope: Scope)
    requires forall k :: 0 <= k < |vs| ==> vs[k] != ""
    ensures var joined, alone := JoinedNeedles(env, vs, scope), AllNeedles(env, vs, scope);
      if NoneRepeats(env, vs, scope) then joined == alone else Total(joined) < Total(alone)
  {
    if vs != [] {
      JoinedIsNoLonger(env, vs[1..], scope);
      OneValueNeedles(env, vs[0], scope);
      TotalAppend(Alternatives(env, vs[0], scope), AllNeedles(env, vs[1..], scope));
      TotalAppend(Cleaned(env, SplitBy(vs[0], IsBar), scope), JoinedNeedles(env, vs[1..], scope));
    }
  }

  /** The query's needles are those of the grouped terms, in order, if and only if no
      value without '|' repeats its own column prefix. */
  lemma QueryNeedlesIff(env: Env, filter: string, g: Group)
    requires Suggests(env, filter, g)
    ensures JoinedNeedles(env, g.values, g.scope) == NeedlesOf(Parse(env, filter), g.scope) <==>
            NoneRepeats(env, g.values, g.scope)
  {
    SuggestionIsClear(env, filter, g);
    NeedlesAreClaimed(env, Fields(filter), g.scope);
    JoinedIsNoLonger(env, g.values, g.scope);
  }

  ghost predicate Exact(env: Env, filter: string, g: Group) {
    forall r :: Keeps(env, Query(g), r) <==> SomeGroupedFound(env, Parse(env, filter), g.scope, r)
  }

  ghost predicate Idempotent(env: Env) { forall c :: env.lower(env.lower(c)) == env.lower(c) }

  /** Needles as the parser makes them: lowercased and not empty. */
  ghost predicate Clear(env: Env, ns: seq<string>) {
    forall k :: 0 <= k < |ns| ==> ns[k] != "" && Lower(env, ns[k]) == ns[k]
  }

  lemma LowerTwice(env: Env, s: string)
    requires Idempotent(env)
    ensures Lower(env, Lower(env, s)) == Lower(env, s)
  {
  }

  lemma {:induction false} CleanedIsClear(env: Env, parts: seq<string>, scope: Scope)
    requires Idempotent(env)
    ensures Clear(env, Cleaned(env, parts, scope))
  {
    if parts != [] {
      CleanedIsClear(env, parts[1..], scope);
      LowerTwice(env, StripRepeatedScope(env, parts[0], scope));
    }
  }

  lemma ClearAppend(env: Env, a: seq<string>, b: seq<string>)
    requires Clear(env, a) && Clear(env, b)
    ensures Clear(env, a + b)
  {
  }

  lemma AlternativesAreClear(env: Env, v: string, scope: Scope)
    requires Idempotent(env) && v != ""
    ensures Clear(env, Alternatives(env, v, scope))
  {
    LowerTwice(env, v);
    CleanedIsClear(env, SplitBy(v, IsBar), scope);
  }

  lemma {:induction false} NeedlesAreClear(env: Env, vs: seq<string>, scope: Scope)
    requires Idempotent(env) && forall k :: 0 <= k < |vs| ==> vs[k] != ""
    ensures Clear(env, AllNeedles(env, vs, scope)) && Clear(env, JoinedNeedles(env, vs, scope))
  {
    if vs != [] {
      NeedlesAreClear(env, vs[1..], scope);
      CleanedIsClear(env, SplitBy(vs[0], IsBar), scope);
      AlternativesAreClear(env, vs[0], scope);
      ClearAppend(env, Cleaned(env, SplitBy(vs[0], IsBar), scope), JoinedNeedles(env, vs[1..], scope));
      ClearAppend(env, Alternatives(env, vs[0], scope), AllNeedles(env, vs[1..], scope));
    }
  }

  /** A row showing one text at a scope, and nothing else. */
  function RowWith(scope: Scope, text: string): Row {
    var cells := if scope.CellAt? then seq(scope.idx, i => Cell("", 0, 0)) + [Cell(text, 0, 0)] else [];
    Row("", if scope == Namespace then text else "", if scope == Name then text else "", "", 0, cells, [])
  }

  lemma FoundInRowWith(env: Env, scope: Scope, ns: seq<string>, text: string)
    requires scope != AnyField
    ensures Found(env, Term(false, scope, Needles(ns)), RowWith(scope, text)) <==> HitsAny(ns, Lower(env, text))
  {
  }

  /** Two lists of needles are found in the same rows only if each covers the other. */
  lemma SameFoundCovers(env: Env, scope: Scope, a: seq<string>, b: seq<string>)
    requires scope != AnyField && Clear(env, a)
    requires forall text :: HitsAny(a, Lower(env, text)) ==> HitsAny(b, Lower(env, text))
    ensures Covered(a, b)
  {
    forall k | 0 <= k < |a| ensures HitsAny(b, a[k]) {
      ContainsSelf(a[k]);
      assert HitsAny(a, Lower(env, a[k]));
    }
  }

  lemma NoHitInEmpty(env: Env, ns: seq<string>)
    requires Clear(env, ns)
    ensures !HitsAny(ns, Lower(env, ""))
  {
  }

  lemma QueryKeeps(env: Env, filter: string, g: Group, r: Row)
    requires Suggests(env, filter, g)
    ensures var ns := JoinedNeedles(env, g.values, g.scope);
      Keeps(env, Query(g), r) <==> ns == [] || Found(env, Term(false, g.scope, Needles(ns)), r)
  {
    QueryParses(env, filter, g);
    var ns := JoinedNeedles(env, g.values, g.scope);
    if ns != [] {
      KeepsOne(env, Query(g), Term(false, g.scope, Needles(ns)), r);
    }
  }

  lemma ExactCovers(env: Env, filter: string, g: Group)
    requires Idempotent(env) && Suggests(env, filter, g) && Exact(env, filter, g)
    ensures var joined, alone := JoinedNeedles(env, g.values, g.scope), NeedlesOf(Parse(env, filter), g.scope);
      joined != [] && Covered(joined, alone) && Covered(alone, joined)
  {
    SuggestionIsClear(env, filter, g);
    NeedlesAreClaimed(env, Fields(filter), g.scope);
    NeedlesAreClear(env, g.values, g.scope);
    var joined, alone := JoinedNeedles(env, g.values, g.scope), NeedlesOf(Parse(env, filter), g.scope);
    forall text: string
      ensures joined == [] || HitsAny(joined, Lower(env, text)) <==> HitsAny(alone, Lower(env, text))
    {
      var r := RowWith(g.scope, text);
      QueryKeeps(env, filter, g, r);
      SomeGroupedIsUnion(env, Parse(env, filter), g.scope, r);
      FoundInRowWith(env, g.scope, joined, text);
      FoundInRowWith(env, g.scope, alone, text);
      assert Keeps(env, Query(g), r) <==> SomeGroupedFound(env, Parse(env, filter), g.scope, r);
    }
    NoHitInEmpty(env, alone);
    SameFoundCovers(env, g.scope, joined, alone);
    SameFoundCovers(env, g.scope, alone, joined);
  }

  /** The query keeps exactly the rows satisfying at least one grouped term if and only if
      it has a needle, every one of its needles contains one of theirs, and every one of
      theirs contains one of its. */
  lemma QueryIsExactIff(env: Env, filter: string, g: Group)
    requires Idempotent(env) && Suggests(env, filter, g)
    ensures Exact(env, filter, g) <==>
            var joined, alone := JoinedNeedles(env, g.values, g.scope), NeedlesOf(Parse(env, filter), g.scope);
            joined != [] && Covered(joined, alone) && Covered(alone, joined)
  {
    var joined, alone := JoinedNeedles(env, g.values, g.scope), NeedlesOf(Parse(env, filter), g.scope);
    if Exact(env, filter, g) {
      ExactCovers(env, filter, g);
    } else if joined != [] && Covered(joined, alone) && Covered(alone, joined) {
      forall r: Row
        ensures Keeps(env, Query(g), r) <==> SomeGroupedFound(env, Parse(env, filter), g.scope, r)
      {
        CoversAreSame(env, filter, g, r);
      }
    }
  }

  lemma CoversAreSame(env: Env, filter: string, g: Group, r: Row)
    requires Suggests(env, filter, g)
    requires JoinedNeedles(env, g.values, g.scope) != []
    requires Covered(JoinedNeedles(env, g.values, g.scope), NeedlesOf(Parse(env, filter), g.scope))
    requires Covered(NeedlesOf(Parse(env, filter), g.scope), JoinedNeedles(env, g.values, g.scope))
    ensures Keeps(env, Query(g), r) <==> SomeGroupedFound(env, Parse(env, filter), g.scope, r)
  {
    var joined, alone := JoinedNeedles(env, g.values, g.scope), NeedlesOf(Parse(env, filter), g.scope);
    QueryKeeps(env, filter, g, r);
    SomeGroupedIsUnion(env, Parse(env, filter), g.scope, r);
    if Found(env, Term(false, g.scope, Needles(joined)), r) {
      CoveredFound(env, g.scope, joined, alone, r);
    }
    if Found(env, Term(false, g.scope, Needles(alone)), r) {
      CoveredFound(env, g.scope, alone, joined, r);
    }
  }

  /** In particular it is exact, for any case mapping, when some value has a non-empty
      alternative and no value without '|' repeats its own column prefix. */
  lemma PlainQueryIsExact(env: Env, filter: string, g: Group)
    requires Suggests(env, filter, g)
    requires NeedlesOf(Parse(env, filter), g.scope) != []
    requires NoneRepeats(env, g.values, g.scope)
    ensures Exact(env, filter, g)
  {
    QueryNeedlesIff(env, filter, g);
    CoveredSelf(JoinedNeedles(env, g.values, g.scope));
    forall r: Row
      ensures Keeps(env, Query(g), r) <==> SomeGroupedFound(env, Parse(env, filter), g.scope, r)
    {
      CoversAreSame(env, filter, g, r);
    }
  }

  lemma TwoInGroup(c: Claim, d: Claim)
    requires c.scope == d.scope
    ensures GroupIs([Some(c), Some(d)], 2, Group(c.scope, c.col, [c.value, d.value]))
  {
    var cs := [Some(c), Some(d)];
    GroupStarts(cs, 0, c);
    GroupExtends(cs, 1, Group(c.scope, c.col, [c.value]));
    assert [c.value] + [d.value] == [c.value, d.value];
  }

  lemma ClaimsOfTwo(env: Env, a: string, b: string, c: Claim, d: Claim)
    requires IsWord(a) && IsWord(b) && ClaimOf(env, a) == Some(c) && ClaimOf(env, b) == Some(d)
    ensures ClaimsOf(env, Fields(a + " " + b)) == [Some(c), Some(d)] && |Fields(a + " " + b)| == 2
  {
    TwoFields(a, b);
    ClaimsOfPair(env, Fields(a + " " + b), c, d);
  }

  lemma ClaimsOfPair(env: Env, toks: seq<string>, c: Claim, d: Claim)
    requires |toks| == 2 && ClaimOf(env, toks[0]) == Some(c) && ClaimOf(env, toks[1]) == Some(d)
    ensures ClaimsOf(env, toks) == [Some(c), Some(d)]
  {
  }

  lemma TwoFields(a: string, b: string)
    requires IsWord(a) && IsWord(b)
    ensures Fields(a + " " + b) == [a, b]
  {
    FieldsConcat(a, ' ', b);
    FieldsOfWord(a);
    FieldsOfWord(b);
  }

  /** Two claiming words make a suggestion. */
  lemma TwoClaims(env: Env, a: string, b: string, c: Claim, d: Claim)
    requires IsWord(a) && IsWord(b) && ClaimOf(env, a) == Some(c) && ClaimOf(env, b) == Some(d)
    requires c.scope == d.scope
    ensures Suggests(env, a + " " + b, Group(c.scope, c.col, [c.value, d.value]))
  {
    ClaimsOfTwo(env, a, b, c, d);
    TwoInGroup(c, d);
  }

  /** A plain value under a column name: "col:value". */
  ghost predicate Column(env: Env, col: string, scope: Scope) {
    && IsWord(col) && ':' !in col && '|' !in col && col[0] != '!' && col[0] != '~'
    && ResolveScope(env, col) == Some(scope)
  }

  function Prefixed(col: string, v: string): string { col + [':'] + v }

  lemma PrefixedClaims(env: Env, col: string, scope: Scope, v: string)
    requires Column(env, col, scope) && IsWord(v) && v[0] != '~'
    ensures ClaimOf(env, Prefixed(col, v)) == Some(Claim(scope, col, v))
    ensures IsWord(Prefixed(col, v)) && Prefixed(col, v)[0] != '~'
  {
    CutIs(col, ':', v);
    assert Prefixed(col, v)[0] == col[0];
    assert Prefixed(col, v)[..1] == [col[0]];
  }

  lemma OneCleaned(env: Env, v: string, scope: Scope)
    requires '|' !in v
    ensures var p := StripRepeatedScope(env, v, scope);
      Cleaned(env, SplitBy(v, IsBar), scope) == if p == "" then [] else [Lower(env, p)]
  {
    SplitOfFree(v, IsBar);
    assert [v][1..] == [];
  }

  lemma JoinedOfTwo(env: Env, v: string, w: string, scope: Scope)
    ensures JoinedNeedles(env, [v, w], scope) ==
            Cleaned(env, SplitBy(v, IsBar), scope) + Cleaned(env, SplitBy(w, IsBar), scope)
    ensures AllNeedles(env, [v, w], scope) == Alternatives(env, v, scope) + Alternatives(env, w, scope)
  {
    assert [v, w][1..] == [w] && [w][1..] == [];
    assert JoinedNeedles(env, [w], scope) == Cleaned(env, SplitBy(w, IsBar), scope);
    AllNeedlesOfOne(env, w, scope);
  }

  lemma PrefixedStrips(env: Env, col: string, scope: Scope, x: string)
    requires Column(env, col, scope)
    ensures StripRepeatedScope(env, Prefixed(col, x), scope) == x
  {
    CutIs(col, ':', x);
  }

  lemma RepeatedNeedles(env: Env, col: string, scope: Scope, x: string, y: string)
    requires Column(env, col, scope)
    requires x != "" && y != "" && '|' !in x && '|' !in y && ':' !in y
    ensures JoinedNeedles(env, [Prefixed(col, x), y], scope) == [Lower(env, x)] + [Lower(env, y)]
    ensures AllNeedles(env, [Prefixed(col, x), y], scope) == [Lower(env, Prefixed(col, x))] + [Lower(env, y)]
  {
    var v := Prefixed(col, x);
    PrefixedStrips(env, col, scope, x);
    JoinedOfTwo(env, v, y, scope);
    OneCleaned(env, v, scope);
    OneCleaned(env, y, scope);
  }

  lemma PrefixedCovers(env: Env, col: string, x: string, y: string)
    ensures Covered([Lower(env, x)] + [Lower(env, y)], [Lower(env, Prefixed(col, x))] + [Lower(env, y)])
       <==> Contains(Lower(env, x), Lower(env, y))
    ensures Covered([Lower(env, Prefixed(col, x))] + [Lower(env, y)], [Lower(env, x)] + [Lower(env, y)])
  {
    var p, q, pre := Lower(env, x), Lower(env, y), Lower(env, Prefixed(col, x));
    assert OccursAt(pre, p, |col| + 1);
    ContainsSelf(q);
    var joined, alone := [p] + [q], [pre] + [q];
    assert joined[0] == p && joined[1] == q && alone[0] == pre && alone[1] == q;
    assert !Contains(p, pre);
    assert HitsAny(alone, joined[0]) <==> Contains(p, q);
    assert HitsAny(alone, joined[1]) && HitsAny(joined, alone[0]) && HitsAny(joined, alone[1]);
  }

  /** "col:col:x col:y" */
  function RepeatedFilter(col: string, x: string, y: string): string {
    Prefixed(col, Prefixed(col, x)) + " " + Prefixed(col, y)
  }

  lemma RepeatedIsSuggested(env: Env, col: string, scope: Scope, x: string, y: string)
    requires Column(env, col, scope) && IsWord(x) && IsWord(y) && x[0] != '~' && y[0] != '~'
    ensures Suggests(env, RepeatedFilter(col, x, y), Group(scope, col, [Prefixed(col, x), y]))
  {
    var v := Prefixed(col, x);
    PrefixedClaims(env, col, scope, x);
    PrefixedClaims(env, col, scope, v);
    PrefixedClaims(env, col, scope, y);
    TwoClaims(env, Prefixed(col, v), Prefixed(col, y), Claim(scope, col, v), Claim(scope, col, y));
  }

  lemma ExactIffCovered(env: Env, filter: string, g: Group)
    requires Idempotent(env) && Suggests(env, filter, g)
    ensures Exact(env, filter, g) <==>
            var joined, alone := JoinedNeedles(env, g.values, g.scope), AllNeedles(env, g.values, g.scope);
            joined != [] && Covered(joined, alone) && Covered(alone, joined)
  {
    SuggestionIsClear(env, filter, g);
    NeedlesAreClaimed(env, Fields(filter), g.scope);
    QueryIsExactIff(env, filter, g);
  }

  /** The condition is needed. "ns:ns:x ns:y" asks for the literal text "ns:x"; its hint
      "ns:ns:x|y" asks for "x" and so keeps a namespace "x" that no grouped term keeps,
      unless y occurs in x. */
  lemma RepeatedPrefixChangesMeaning(env: Env, col: string, scope: Scope, x: string, y: string)
    requires Idempotent(env) && Column(env, col, scope)
    requires IsWord(x) && IsWord(y) && x[0] != '~' && y[0] != '~'
    requires '|' !in x && '|' !in y && ':' !in y
    ensures var filter, g := RepeatedFilter(col, x, y), Group(scope, col, [Prefixed(col, x), y]);
      Suggests(env, filter, g) && (Exact(env, filter, g) <==> Contains(Lower(env, x), Lower(env, y)))
  {
    RepeatedIsSuggested(env, col, scope, x, y);
    RepeatedNeedles(env, col, scope, x, y);
    PrefixedCovers(env, col, x, y);
    ExactIffCovered(env, RepeatedFilter(col, x, y), Group(scope, col, [Prefixed(col, x), y]));
  }

  lemma NotInside(p: string, q: string)
    requires |p| == 1 && |q| == 1 && p[0] != q[0]
    ensures !Contains(p, q)
  {
    assert p[0..1] == p;
  }

  /** For instance "ns:ns:a ns:b", whenever the case mapping keeps a and b apart. */
  lemma RepeatedPrefixExample(env: Env)
    requires Idempotent(env) && Column(env, "ns", Namespace) && env.lower('a') != env.lower('b')
    ensures Suggests(env, RepeatedFilter("ns", "a", "b"), Group(Namespace, "ns", [Prefixed("ns", "a"), "b"]))
    ensures !Exact(env, RepeatedFilter("ns", "a", "b"), Group(Namespace, "ns", [Prefixed("ns", "a"), "b"]))
  {
    NotInside(Lower(env, "a"), Lower(env, "b"));
    RepeatedPrefixChangesMeaning(env, "ns", Namespace, "a", "b");
  }
}
