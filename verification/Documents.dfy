/** Splitting a multi-document YAML stream (internal/action/apply/apply.go). */
module Documents {
  import opened Text

  predicate IsSeparator(line: string) { TrimSpace(line) == "---" }

  /** A line that is neither blank nor a comment. */
  predicate Carries(line: string) {
    var t := TrimSpace(line);
    t != "" && !HasPrefix(t, "#")
  }

  /** A line separates exactly when it is "---" between white space. */
  lemma SeparatesIff(line: string)
    ensures IsSeparator(line) <==> exists a, b :: AllSpace(a) && AllSpace(b) && line == a + "---" + b
  {
    if IsSeparator(line) {
      var a, b := TrimSpaceCuts(line);
    } else if a, b :| AllSpace(a) && AllSpace(b) && line == a + "---" + b {
      TrimSpaceIs(a, "---", b);
    }
  }

  /** A line carries something exactly when its first character that is not white space exists and
      is not '#'. */
  lemma CarriesIff(line: string)
    ensures Carries(line) <==>
            exists k :: 0 <= k < |line| && AllSpace(line[..k]) && !IsSpace(line[k]) && line[k] != '#'
  {
    if Carries(line) {
      var a, b := TrimSpaceCuts(line);
      var t := TrimSpace(line);
      assert line[..|a|] == a && line[|a|] == t[0] && t[..1] == [t[0]];
    }
    if k :| 0 <= k < |line| && AllSpace(line[..k]) && !IsSpace(line[k]) && line[k] != '#' {
      FirstCharacterStays(line, k);
    }
  }

  lemma FirstCharacterStays(line: string, k: nat)
    requires k < |line| && AllSpace(line[..k]) && !IsSpace(line[k])
    ensures TrimSpace(line) != "" && TrimSpace(line)[..1] == [line[k]]
  {
    assert line == line[..k] + line[k..];
    TrimLeftIs(line[..k], line[k..]);
    TrimRightKeepsFirst(line[k..]);
  }

  predicate SomeCarries(lines: seq<string>) {
    exists k :: 0 <= k < |lines| && Carries(lines[k])
  }

  method HasContent(doc: string) returns (found: bool)
    ensures found == SomeCarries(Lines(doc))
  {
    var lines := Lines(doc);
    for i := 0 to |lines|
      invariant !SomeCarries(lines[..i])
    {
      if Carries(lines[i]) {
        return true;
      }
    }
    assert lines[..|lines|] == lines;
    return false;
  }

  /** What one run of lines between separators contributes: one document or none. */
  function DocumentOf(run: seq<string>): (docs: seq<string>)
    ensures |docs| <= 1
  {
    var joined := Join(run, "\n");
    if SomeCarries(Lines(joined)) then [TrimRightNewlines(joined)] else []
  }

  function DocumentsOf(runs: seq<seq<string>>): seq<string> {
    if runs == [] then [] else DocumentOf(runs[0]) + DocumentsOf(runs[1..])
  }

  /** The documents of a stream: the runs of lines between separator lines. */
  function Documents(data: string): seq<string> {
    DocumentsOf(SplitBy(Lines(data), IsSeparator))
  }

  lemma {:induction false} DocumentsOfConcat(a: seq<seq<string>>, b: seq<seq<string>>)
    ensures DocumentsOf(a + b) == DocumentsOf(a) + DocumentsOf(b)
  {
    if a == [] {
      assert a + b == b;
    } else {
      DocumentsOfConcat(a[1..], b);
      Uncons(a, b);
      Assoc(DocumentOf(a[0]), DocumentsOf(a[1..]), DocumentsOf(b));
    }
  }

  method SplitDocuments(data: string) returns (docs: seq<string>)
    ensures docs == Documents(data)
  {
    docs := [];
    var cur: seq<string> := [];
    var lines := Lines(data);
    ghost var runs := [[]];
    assert DocumentsOf(runs[..0]) == [];
    for i := 0 to |lines|
      invariant runs == SplitBy(lines[..i], IsSeparator)
      invariant cur == runs[|runs| - 1]
      invariant docs == DocumentsOf(runs[..|runs| - 1])
    {
      SplitSnoc(lines[..i], lines[i], IsSeparator);
      assert lines[..i + 1] == lines[..i] + [lines[i]];
      ghost var before := runs;
      runs := SplitBy(lines[..i + 1], IsSeparator);
      if IsSeparator(lines[i]) {
        docs := Flush(docs, cur, before);
        assert runs[..|runs| - 1] == before;
        cur := [];
      } else {
        assert runs[..|runs| - 1] == before[..|before| - 1];
        cur := cur + [lines[i]];
      }
    }
    assert lines[..|lines|] == lines;
    docs := Flush(docs, cur, runs);
  }

  /** The flush closure: the current run becomes a document if it has content. */
  method Flush(docs: seq<string>, cur: seq<string>, ghost runs: seq<seq<string>>) returns (out: seq<string>)
    requires runs != [] && cur == runs[|runs| - 1] && docs == DocumentsOf(runs[..|runs| - 1])
    ensures out == DocumentsOf(runs)
  {
    var joined := Join(cur, "\n");
    var content := HasContent(joined);
    out := if content then docs + [TrimRightNewlines(joined)] else docs;
    assert runs == runs[..|runs| - 1] + [cur];
    DocumentsOfConcat(runs[..|runs| - 1], [cur]);
    assert DocumentsOf([cur]) == DocumentOf(cur);
  }

  /** Splitting a stream at a separator line splits its documents. */
  lemma SplitAtSeparator(a: string, b: string)
    ensures Documents(a + "\n---\n" + b) == Documents(a) + Documents(b)
  {
    assert a + "\n---\n" + b == a + ['\n'] + ("---" + ['\n'] + b);
    SplitConcat(a, '\n', "---" + ['\n'] + b, IsNewline);
    SplitConcat("---", '\n', b, IsNewline);
    SplitOfFree("---", IsNewline);
    assert Lines(a + "\n---\n" + b) == Lines(a) + ["---"] + Lines(b);
    SplitConcat(Lines(a), "---", Lines(b), IsSeparator);
    DocumentsOfConcat(SplitBy(Lines(a), IsSeparator), SplitBy(Lines(b), IsSeparator));
  }

  // ---- conservation of content lines -----------------------------------------

  predicate IsPayload(line: string) { Carries(line) && !IsSeparator(line) }

  /** The non-blank, non-comment, non-separator lines, in order. */
  function Payload(lines: seq<string>): seq<string> {
    if lines == [] then [] else (if IsPayload(lines[0]) then [lines[0]] else []) + Payload(lines[1..])
  }

  function PayloadOfDocuments(docs: seq<string>): seq<string> {
    if docs == [] then [] else Payload(Lines(docs[0])) + PayloadOfDocuments(docs[1..])
  }

  lemma {:induction false} PayloadConcat(a: seq<string>, b: seq<string>)
    ensures Payload(a + b) == Payload(a) + Payload(b)
  {
    if a == [] {
      assert a + b == b;
    } else {
      PayloadConcat(a[1..], b);
      Uncons(a, b);
      Assoc(if IsPayload(a[0]) then [a[0]] else [], Payload(a[1..]), Payload(b));
    }
  }

  lemma {:induction false} PayloadOfDocumentsConcat(a: seq<string>, b: seq<string>)
    ensures PayloadOfDocuments(a + b) == PayloadOfDocuments(a) + PayloadOfDocuments(b)
  {
    if a == [] {
      assert a + b == b;
    } else {
      PayloadOfDocumentsConcat(a[1..], b);
      Uncons(a, b);
      Assoc(Payload(Lines(a[0])), PayloadOfDocuments(a[1..]), PayloadOfDocuments(b));
    }
  }

  lemma {:induction false} PayloadIgnoresTrailingNewlines(s: string)
    ensures Payload(Lines(TrimRightNewlines(s))) == Payload(Lines(s))
    ensures Free(Lines(s), IsSeparator) ==> Free(Lines(TrimRightNewlines(s)), IsSeparator)
  {
    if s != "" && s[|s| - 1] == '\n' {
      var t := s[..|s| - 1];
      PayloadIgnoresTrailingNewlines(t);
      assert s == t + ['\n'] + "";
      SplitConcat(t, '\n', "", IsNewline);
      PayloadConcat(Lines(t), [""]);
      assert Lines(s) == Lines(t) + [""];
      assert forall k :: 0 <= k < |Lines(t)| ==> Lines(s)[k] == Lines(t)[k];
    }
  }

  /** The lines of a joined run are the run, up to the blank line an empty run reads as. */
  lemma JoinedRun(run: seq<string>)
    requires AllFree(run, IsNewline) && Free(run, IsSeparator)
    ensures Payload(Lines(Join(run, "\n"))) == Payload(run)
    ensures Free(Lines(Join(run, "\n")), IsSeparator)
  {
    if run == [] {
      assert Lines("") == [""];
    } else {
      SplitJoin(run, '\n', IsNewline);
    }
  }

  /** A line of a separator-free run carries content exactly when it is payload. */
  lemma {:induction false} CarriesIsPayload(lines: seq<string>)
    requires Free(lines, IsSeparator)
    ensures SomeCarries(lines) <==> Payload(lines) != []
  {
    if lines != [] {
      CarriesIsPayload(lines[1..]);
      assert forall k :: 0 < k < |lines| ==> lines[k] == lines[1..][k - 1];
      assert forall k :: 0 <= k < |lines| - 1 ==> lines[1..][k] == lines[k + 1];
    }
  }

  lemma DocumentPayload(run: seq<string>)
    requires AllFree(run, IsNewline) && Free(run, IsSeparator)
    ensures PayloadOfDocuments(DocumentOf(run)) == Payload(run)
    ensures forall d :: d in DocumentOf(run) ==> Canonical(d)
  {
    var joined := Join(run, "\n");
    JoinedRun(run);
    CarriesIsPayload(Lines(joined));
    PayloadIgnoresTrailingNewlines(joined);
    CarriesIsPayload(Lines(TrimRightNewlines(joined)));
    if SomeCarries(Lines(joined)) {
      assert DocumentOf(run)[1..] == [];
    }
  }

  lemma {:induction false} RunsPayload(runs: seq<seq<string>>)
    requires forall k :: 0 <= k < |runs| ==> AllFree(runs[k], IsNewline) && Free(runs[k], IsSeparator)
    ensures PayloadOfDocuments(DocumentsOf(runs)) == PayloadOfRuns(runs)
    ensures forall d :: d in DocumentsOf(runs) ==> Canonical(d)
  {
    if runs != [] {
      DocumentPayload(runs[0]);
      RunsPayload(runs[1..]);
      PayloadOfDocumentsConcat(DocumentOf(runs[0]), DocumentsOf(runs[1..]));
    }
  }

  function PayloadOfRuns(runs: seq<seq<string>>): seq<string> {
    if runs == [] then [] else Payload(runs[0]) + PayloadOfRuns(runs[1..])
  }

  lemma {:induction false} PayloadAcrossSplit(lines: seq<string>)
    ensures PayloadOfRuns(SplitBy(lines, IsSeparator)) == Payload(lines)
  {
    if lines != [] {
      PayloadAcrossSplit(lines[1..]);
      var rest := SplitBy(lines[1..], IsSeparator);
      if !IsSeparator(lines[0]) {
        PayloadConcat([lines[0]], rest[0]);
        assert ([[lines[0]] + rest[0]] + rest[1..])[1..] == rest[1..];
      } else {
        assert ([[]] + rest)[1..] == rest;
      }
    }
  }

  lemma {:induction false} RunsKeepLines(lines: seq<string>)
    requires AllFree(lines, IsNewline)
    ensures forall k :: 0 <= k < |SplitBy(lines, IsSeparator)| ==> AllFree(SplitBy(lines, IsSeparator)[k], IsNewline)
  {
    if lines != [] {
      RunsKeepLines(lines[1..]);
    }
  }

  /** No payload line is lost, invented or reordered, and every document comes out canonical. */
  lemma SplitConservesPayload(data: string)
    ensures PayloadOfDocuments(Documents(data)) == Payload(Lines(data))
    ensures forall d :: d in Documents(data) ==> Canonical(d)
  {
    var lines := Lines(data);
    SplitFree(data, IsNewline);
    SplitFree(lines, IsSeparator);
    RunsKeepLines(lines);
    RunsPayload(SplitBy(lines, IsSeparator));
    PayloadAcrossSplit(lines);
  }

  /** A stream without a separator is one document, up to its trailing newlines, or none when no
      line carries anything. */
  lemma LoneDocument(data: string)
    requires forall k :: 0 <= k < |Lines(data)| ==> !IsSeparator(Lines(data)[k])
    ensures Documents(data) == if SomeCarries(Lines(data)) then [TrimRightNewlines(data)] else []
  {
    SplitOfFree(Lines(data), IsSeparator);
    JoinLines(data);
    assert DocumentsOf([Lines(data)]) == DocumentOf(Lines(data)) + DocumentsOf([]);
  }

  // ---- splitting again -------------------------------------------------------

  /** A document as the splitter emits it. */
  ghost predicate Canonical(d: string) {
    && Free(Lines(d), IsSeparator)
    && SomeCarries(Lines(d))
    && TrimRightNewlines(d) == d
  }

  lemma CanonicalIsFixed(d: string)
    requires Canonical(d)
    ensures Documents(d) == [d]
  {
    SplitOfFree(Lines(d), IsSeparator);
    JoinLines(d);
    assert DocumentsOf([Lines(d)]) == DocumentOf(Lines(d)) + DocumentsOf([]);
  }

  lemma {:induction false} ResplitCanonical(docs: seq<string>)
    requires forall d :: d in docs ==> Canonical(d)
    ensures Documents(Join(docs, "\n---\n")) == docs
  {
    if docs == [] {
      assert Lines("") == [""];
      SplitOfFree([""], IsSeparator);
      assert DocumentsOf([[""]]) == DocumentOf([""]) + DocumentsOf([]);
    } else if |docs| == 1 {
      CanonicalIsFixed(docs[0]);
    } else {
      CanonicalIsFixed(docs[0]);
      ResplitCanonical(docs[1..]);
      SplitAtSeparator(docs[0], Join(docs[1..], "\n---\n"));
      assert [docs[0]] + docs[1..] == docs;
    }
  }

  /** Joining the documents with separators and splitting again returns them unchanged. */
  lemma ResplitIsIdentity(data: string)
    ensures Documents(Join(Documents(data), "\n---\n")) == Documents(data)
  {
    SplitConservesPayload(data);
    ResplitCanonical(Documents(data));
  }
}
