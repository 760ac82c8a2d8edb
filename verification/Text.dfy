/** The string operations the rest of the model is written in: splitting, joining,
    cutting, trimming and field splitting, with the algebra the proofs use.
    A string is a sequence of characters; case mapping is a parameter elsewhere. */
module Text {

  datatype Option<+T> = None | Some(value: T)

  predicate IsNewline(c: char) { c == '\n' }
  predicate IsBar(c: char) { c == '|' }

  /** The white space of Go's unicode.IsSpace. */
  predicate IsSpace(c: char) {
    || '\t' <= c <= '\r' || c == ' ' || c as int == 0x85 || c as int == 0xA0
    || c as int == 0x1680 || 0x2000 <= c as int <= 0x200A || c as int == 0x2028
    || c as int == 0x2029 || c as int == 0x202F || c as int == 0x205F || c as int == 0x3000
  }

  // ---- two facts of concatenation, stated once -------------------------------

  lemma Uncons<T>(a: seq<T>, b: seq<T>)
    requires a != []
    ensures (a + b)[0] == a[0] && (a + b)[1..] == a[1..] + b
  {
  }

  lemma Assoc<T>(a: seq<T>, b: seq<T>, c: seq<T>)
    ensures (a + b) + c == a + (b + c)
  {
  }

  // ---- splitting and joining -------------------------------------------------

  /** Splits at every separator element; there is always at least one part. */
  function SplitBy<T>(s: seq<T>, sep: T -> bool): (parts: seq<seq<T>>)
    ensures |parts| >= 1
  {
    if s == [] then [[]]
    else
      var rest := SplitBy(s[1..], sep);
      if sep(s[0]) then [[]] + rest else [[s[0]] + rest[0]] + rest[1..]
  }

  function Join(parts: seq<string>, sep: string): string {
    if parts == [] then ""
    else if |parts| == 1 then parts[0]
    else parts[0] + sep + Join(parts[1..], sep)
  }

  function Lines(s: string): (parts: seq<string>)
    ensures |parts| >= 1
  {
    SplitBy(s, IsNewline)
  }

  ghost predicate Free<T>(s: seq<T>, sep: T -> bool) {
    forall k :: 0 <= k < |s| ==> !sep(s[k])
  }

  ghost predicate AllFree<T>(parts: seq<seq<T>>, sep: T -> bool) {
    forall k :: 0 <= k < |parts| ==> Free(parts[k], sep)
  }

  lemma {:induction false} SplitFree<T>(s: seq<T>, sep: T -> bool)
    ensures AllFree(SplitBy(s, sep), sep)
  {
    if s != [] {
      SplitFree(s[1..], sep);
    }
  }

  lemma {:induction false} SplitOfFree<T>(s: seq<T>, sep: T -> bool)
    requires Free(s, sep)
    ensures SplitBy(s, sep) == [s]
  {
    if s != [] {
      SplitOfFree(s[1..], sep);
      assert [s[0]] + s[1..] == s;
    }
  }

  /** Splitting distributes over a separator. */
  lemma {:induction false} SplitConcat<T>(a: seq<T>, x: T, b: seq<T>, sep: T -> bool)
    requires sep(x)
    ensures SplitBy(a + [x] + b, sep) == SplitBy(a, sep) + SplitBy(b, sep)
  {
    var whole := a + [x] + b;
    if a == [] {
      assert whole[1..] == b;
      assert SplitBy(a, sep) == [[]];
    } else {
      SplitConcat(a[1..], x, b, sep);
      assert whole[1..] == a[1..] + [x] + b && whole[0] == a[0];
      var p, q := SplitBy(a[1..], sep), SplitBy(b, sep);
      Uncons(p, q);
      if sep(a[0]) {
        Assoc([[]], p, q);
      } else {
        Assoc([[a[0]] + p[0]], p[1..], q);
      }
    }
  }

  function AppendToLast<T>(parts: seq<seq<T>>, x: T): (r: seq<seq<T>>)
    requires parts != []
    ensures |r| == |parts| && r[..|r| - 1] == parts[..|r| - 1]
    ensures r[|r| - 1] == parts[|r| - 1] + [x]
  {
    parts[..|parts| - 1] + [parts[|parts| - 1] + [x]]
  }

  lemma AppendToLastCons<T>(p: seq<T>, rest: seq<seq<T>>, x: T)
    requires rest != []
    ensures AppendToLast([p] + rest, x) == [p] + AppendToLast(rest, x)
  {
  }

  function ConsSplit<T>(h: T, q: seq<seq<T>>, sep: T -> bool): seq<seq<T>>
    requires q != []
  {
    if sep(h) then [[]] + q else [[h] + q[0]] + q[1..]
  }

  lemma SnocUnderCons<T>(h: T, q: seq<seq<T>>, x: T, sep: T -> bool)
    requires q != []
    ensures ConsSplit(h, if sep(x) then q + [[]] else AppendToLast(q, x), sep)
         == if sep(x) then ConsSplit(h, q, sep) + [[]] else AppendToLast(ConsSplit(h, q, sep), x)
  {
    if sep(x) {
      Uncons(q, [[]]);
      if sep(h) {
        Assoc([[]], q, [[]]);
      } else {
        Assoc([[h] + q[0]], q[1..], [[]]);
      }
    } else if sep(h) {
      AppendToLastCons([], q, x);
    } else if |q| == 1 {
      Assoc([h], q[0], [x]);
      assert AppendToLast(q, x) == [q[0] + [x]];
    } else {
      AppendToLastCons([h] + q[0], q[1..], x);
      AppendToLastCons(q[0], q[1..], x);
      assert q == [q[0]] + q[1..];
      Uncons([q[0]], AppendToLast(q[1..], x));
    }
  }

  /** Splitting one element further. */
  lemma {:induction false} SplitSnoc<T>(s: seq<T>, x: T, sep: T -> bool)
    ensures SplitBy(s + [x], sep) ==
            if sep(x) then SplitBy(s, sep) + [[]] else AppendToLast(SplitBy(s, sep), x)
  {
    if s == [] {
      assert s + [x] == [x] && [x][1..] == [];
      assert SplitBy(s, sep) == [[]] && [x] + [] == [] + [x];
    } else {
      SplitSnoc(s[1..], x, sep);
      assert (s + [x])[1..] == s[1..] + [x];
      var q := SplitBy(s[1..], sep);
      SnocUnderCons(s[0], q, x, sep);
    }
  }

  lemma {:induction false} JoinLines(s: string)
    ensures Join(Lines(s), "\n") == s
  {
    if s != "" {
      JoinLines(s[1..]);
      var rest := Lines(s[1..]);
      if IsNewline(s[0]) {
        assert ([""] + rest)[1..] == rest;
      } else if |rest| > 1 {
        assert ([[s[0]] + rest[0]] + rest[1..])[1..] == rest[1..];
      }
    }
  }

  /** Joining separator-free parts and splitting again gives the parts back. */
  lemma {:induction false} SplitJoin(parts: seq<string>, c: char, sep: char -> bool)
    requires parts != [] && AllFree(parts, sep) && sep(c)
    ensures SplitBy(Join(parts, [c]), sep) == parts
  {
    SplitOfFree(parts[0], sep);
    if |parts| > 1 {
      SplitJoin(parts[1..], c, sep);
      SplitConcat(parts[0], c, Join(parts[1..], [c]), sep);
      assert parts == [parts[0]] + parts[1..];
    }
  }

  lemma {:induction false} JoinFree(parts: seq<string>, c: char, p: char -> bool)
    requires AllFree(parts, p) && !p(c)
    ensures Free(Join(parts, [c]), p)
  {
    if |parts| > 1 {
      JoinFree(parts[1..], c, p);
    }
  }

  // ---- searching and cutting -------------------------------------------------

  predicate HasPrefix(s: string, p: string) { |p| <= |s| && s[..|p|] == p }

  predicate OccursAt(s: string, sub: string, i: nat) {
    i + |sub| <= |s| && s[i..i + |sub|] == sub
  }

  predicate Contains(s: string, sub: string) {
    exists i: nat :: i <= |s| && OccursAt(s, sub, i)
  }

  lemma ContainsSelf(s: string)
    ensures Contains(s, s)
  {
    assert OccursAt(s, s, 0);
  }

  datatype Cutting = Whole | Parts(before: string, after: string)

  /** Splits around the first c, as strings.Cut does. */
  function Cut(s: string, c: char): (r: Cutting)
    ensures r.Parts? <==> c in s
    ensures r.Parts? ==> s == r.before + [c] + r.after && c !in r.before
  {
    if s == [] then Whole
    else if s[0] == c then Parts("", s[1..])
    else
      match Cut(s[1..], c)
      case Whole => Whole
      case Parts(a, b) =>
        assert s == [s[0]] + (a + [c] + b);
        Parts([s[0]] + a, b)
  }

  /** Splits around the last c. */
  function CutLast(s: string, c: char): (r: Cutting)
    ensures r.Whole? ==> c !in s
    ensures r.Parts? ==> s == r.before + [c] + r.after && c !in r.after
  {
    if s == [] then Whole
    else
      var n := |s| - 1;
      assert s == s[..n] + [s[n]];
      if s[n] == c then Parts(s[..n], "")
      else
        match CutLast(s[..n], c)
        case Whole => Whole
        case Parts(a, b) =>
          Assoc(a + [c], b, [s[n]]);
          Parts(a, b + [s[n]])
  }

  lemma {:induction false} CutLastIs(before: string, c: char, after: string)
    requires c !in after
    ensures CutLast(before + [c] + after, c) == Parts(before, after)
  {
    var s, m := before + [c] + after, |after| - 1;
    if after == "" {
      assert s == before + [c] && s[..|s| - 1] == before;
    } else {
      assert s[..|s| - 1] == before + [c] + after[..m] && s[|s| - 1] == after[m];
      CutLastIs(before, c, after[..m]);
      assert after[..m] + [after[m]] == after;
    }
  }

  lemma CutIs(before: string, c: char, after: string)
    requires c !in before
    ensures Cut(before + [c] + after, c) == Parts(before, after)
  {
    var s := before + [c] + after;
    var r := Cut(s, c);
    assert s[|before|] == c;
    var n := |r.before|;
    assert s[n] == c;
    assert n == |before|;
    assert r.before == s[..n] && r.after == s[n + 1..];
    assert s[..|before|] == before && s[|before| + 1..] == after;
  }

  // ---- trimming --------------------------------------------------------------

  function TrimLeft(s: string): string {
    if s != [] && IsSpace(s[0]) then TrimLeft(s[1..]) else s
  }

  function TrimRight(s: string): string {
    if s != [] && IsSpace(s[|s| - 1]) then TrimRight(s[..|s| - 1]) else s
  }

  function TrimSpace(s: string): string { TrimRight(TrimLeft(s)) }

  ghost predicate AllSpace(s: string) { forall k :: 0 <= k < |s| ==> IsSpace(s[k]) }

  /** Nothing, or a text that neither begins nor ends with white space. */
  ghost predicate Trimmed(t: string) { t == "" || (!IsSpace(t[0]) && !IsSpace(t[|t| - 1])) }

  lemma {:induction false} TrimLeftIs(a: string, t: string)
    requires AllSpace(a) && (t == "" || !IsSpace(t[0]))
    ensures TrimLeft(a + t) == t
  {
    if a == "" {
      assert a + t == t;
    } else {
      Uncons(a, t);
      TrimLeftIs(a[1..], t);
    }
  }

  lemma {:induction false} TrimRightIs(t: string, b: string)
    requires AllSpace(b) && (t == "" || !IsSpace(t[|t| - 1]))
    ensures TrimRight(t + b) == t
  {
    if b == "" {
      assert t + b == t;
    } else {
      assert (t + b)[..|t + b| - 1] == t + b[..|b| - 1];
      TrimRightIs(t, b[..|b| - 1]);
    }
  }

  lemma {:induction false} TrimLeftCuts(s: string) returns (a: string)
    ensures s == a + TrimLeft(s) && AllSpace(a) && (TrimLeft(s) == "" || !IsSpace(TrimLeft(s)[0]))
  {
    a := "";
    if s != "" && IsSpace(s[0]) {
      a := TrimLeftCuts(s[1..]);
      a := [s[0]] + a;
    }
  }

  lemma {:induction false} TrimRightCuts(s: string) returns (b: string)
    ensures s == TrimRight(s) + b && AllSpace(b) && (TrimRight(s) == "" || !IsSpace(TrimRight(s)[|TrimRight(s)| - 1]))
  {
    b := "";
    if s != "" && IsSpace(s[|s| - 1]) {
      b := TrimRightCuts(s[..|s| - 1]);
      b := b + [s[|s| - 1]];
    }
  }

  lemma {:induction false} TrimRightKeepsFirst(s: string)
    requires s != "" && !IsSpace(s[0])
    ensures TrimRight(s) != "" && TrimRight(s)[0] == s[0]
  {
    if IsSpace(s[|s| - 1]) {
      TrimRightKeepsFirst(s[..|s| - 1]);
    }
  }

  /** What is left after trimming is what stands between white space, and is trimmed. */
  lemma TrimSpaceCuts(s: string) returns (a: string, b: string)
    ensures s == a + TrimSpace(s) + b && AllSpace(a) && AllSpace(b) && Trimmed(TrimSpace(s))
  {
    a := TrimLeftCuts(s);
    var m := TrimLeft(s);
    b := TrimRightCuts(m);
    Assoc(a, TrimRight(m), b);
    assert TrimRight(m) != "" ==> m[0] == TrimRight(m)[0];
  }

  lemma TrimSpaceIs(a: string, t: string, b: string)
    requires AllSpace(a) && AllSpace(b) && t != "" && Trimmed(t)
    ensures TrimSpace(a + t + b) == t
  {
    Assoc(a, t, b);
    assert (t + b)[0] == t[0];
    TrimLeftIs(a, t + b);
    TrimRightIs(t, b);
  }

  function TrimRightNewlines(s: string): (t: string)
    ensures t == "" || t[|t| - 1] != '\n'
    ensures |t| <= |s| && s[..|t|] == t && forall k :: |t| <= k < |s| ==> s[k] == '\n'
  {
    if s != [] && s[|s| - 1] == '\n' then TrimRightNewlines(s[..|s| - 1]) else s
  }

  // ---- white-space separated fields ------------------------------------------

  /** The index of the first white space, or |s|. */
  function WordEnd(s: string): (i: nat)
    ensures i <= |s| && Free(s[..i], IsSpace) && (i < |s| ==> IsSpace(s[i]))
  {
    if s == [] || IsSpace(s[0]) then 0 else 1 + WordEnd(s[1..])
  }

  function Fields(s: string): seq<string>
    decreases |s|
  {
    if s == [] then []
    else if IsSpace(s[0]) then Fields(s[1..])
    else [s[..WordEnd(s)]] + Fields(s[WordEnd(s)..])
  }

  ghost predicate IsWord(w: string) { w != "" && Free(w, IsSpace) }

  lemma {:induction false} WordEndIs(w: string, rest: string)
    requires Free(w, IsSpace) && (rest == "" || IsSpace(rest[0]))
    ensures WordEnd(w + rest) == |w|
  {
    if w == "" {
      assert w + rest == rest;
    } else {
      assert (w + rest)[1..] == w[1..] + rest;
      WordEndIs(w[1..], rest);
    }
  }

  lemma {:induction false} FieldsOfWord(w: string)
    requires IsWord(w)
    ensures Fields(w) == [w]
  {
    WordEndIs(w, "");
    assert w + "" == w && w[..|w|] == w && w[|w|..] == "";
  }

  lemma {:induction false} FieldsAreWords(s: string)
    ensures forall k :: 0 <= k < |Fields(s)| ==> IsWord(Fields(s)[k])
    decreases |s|
  {
    if s != "" {
      if IsSpace(s[0]) {
        FieldsAreWords(s[1..]);
      } else {
        FieldsAreWords(s[WordEnd(s)..]);
      }
    }
  }

  /** A white-space character between two texts separates their fields. */
  lemma {:induction false} FieldsConcat(f: string, sp: char, g: string)
    requires IsSpace(sp)
    ensures Fields(f + [sp] + g) == Fields(f) + Fields(g)
    decreases |f|
  {
    var whole := f + [sp] + g;
    if f == "" {
      assert whole[1..] == g;
    } else if IsSpace(f[0]) {
      assert whole[1..] == f[1..] + [sp] + g;
      FieldsConcat(f[1..], sp, g);
    } else {
      var k := WordEnd(f);
      var rest := f[k..] + [sp] + g;
      assert whole == f[..k] + rest;
      WordEndIs(f[..k], rest);
      assert whole[..k] == f[..k] && whole[k..] == rest;
      FieldsConcat(f[k..], sp, g);
      Assoc([f[..k]], Fields(f[k..]), Fields(g));
    }
  }
}
