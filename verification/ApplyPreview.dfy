/** The dry-run preview and the real apply (internal/action/apply/diff.go and apply.go),
    against an API server that is a function of the live object and the document. */
module ApplyPreview {
  import opened Text
  import opened Documents
  import opened LineDiff

  datatype Target = Target(resource: string, namespace: Option<string>, name: string)
  datatype Mapping = Mapping(resource: string, namespaced: bool)

  datatype Parsed<+O> =
    | Unreadable(reason: string)
    | Readable(gvk: string, name: string, namespace: string, manifest: O)

  datatype Patched<+O> = Rejected(reason: string) | Accepted(manifest: O)

  /** Everything outside the package: the YAML parser, the REST mapper, the encoders and
      the server. Patch is the server-side apply; a dry run returns the same object. */
  datatype Api<!O> = Api(
    parse: string -> Parsed<O>,
    mapping: string -> Option<Mapping>,
    encode: O -> Option<string>,
    fetchError: Target -> Option<string>,
    patch: (Target, Option<O>, string) -> Patched<O>,
    yaml: O -> Option<string>)

  datatype Failure =
    | ParseFailed(reason: string)
    | NoMapping(gvk: string)
    | FetchFailed(reason: string)
    | EncodeFailed
    | PatchFailed(reason: string)
    | YamlFailed

  datatype Result = Result(gvk: string, namespace: string, name: string, error: Option<Failure>)
  datatype DiffResult = DiffResult(gvk: string, namespace: string, name: string, diff: string, error: Option<Failure>)

  /** schema.GroupVersionKind{}.String() */
  const EMPTY_GVK := "/, Kind="

  type Store<O> = map<Target, O>

  function Live<O>(objects: Store<O>, t: Target): Option<O> {
    if t in objects then Some(objects[t]) else None
  }

  function TargetFor(m: Mapping, namespace: string, name: string): Target {
    Target(m.resource, if m.namespaced then Some(namespace) else None, name)
  }

  function DiffLabel(gvk: string, namespace: string, name: string): (h: string)
    ensures h == gvk + " " + name || h == gvk + " " + namespace + "/" + name
    ensures namespace != "" ==> |h| == |gvk| + |namespace| + |name| + 2
  {
    if namespace == "" then gvk + " " + name else gvk + " " + namespace + "/" + name
  }

  // ---- one document: what Apply does -----------------------------------------

  function ApplyDoc<O>(api: Api<O>, objects: Store<O>, doc: string, defaultNs: string): (Result, Store<O>) {
    match api.parse(doc)
    case Unreadable(reason) => (Result(EMPTY_GVK, "", "", Some(ParseFailed(reason))), objects)
    case Readable(gvk, name, namespace, manifest) =>
      match api.mapping(gvk)
      case None => (Result(gvk, "", name, Some(NoMapping(gvk))), objects)
      case Some(m) =>
        var ns := if m.namespaced && namespace == "" then defaultNs else namespace;
        match api.encode(manifest)
        case None => (Result(gvk, ns, name, Some(EncodeFailed)), objects)
        case Some(json) =>
          var t := TargetFor(m, ns, name);
          match api.patch(t, Live(objects, t), json)
          case Rejected(reason) => (Result(gvk, ns, name, Some(PatchFailed(reason))), objects)
          case Accepted(stored) => (Result(gvk, ns, name, None), objects[t := stored])
  }

  function ApplyAll<O>(api: Api<O>, objects: Store<O>, docs: seq<string>, defaultNs: string): (r: (seq<Result>, Store<O>))
    ensures |r.0| == |docs|
    decreases |docs|
  {
    if docs == [] then ([], objects)
    else
      var (first, next) := ApplyDoc(api, objects, docs[0], defaultNs);
      var (rest, last) := ApplyAll(api, next, docs[1..], defaultNs);
      ([first] + rest, last)
  }

  // ---- one document: what Diff does ------------------------------------------

  function RenderDiff<O>(api: Api<O>, live: Option<O>, proposed: O, header: string): (string, Option<Failure>) {
    match api.yaml(proposed)
    case None => ("", Some(YamlFailed))
    case Some(proposedYaml) =>
      if live.None? then (AddText(proposedYaml, header), None)
      else
        match api.yaml(live.value)
        case None => ("", Some(YamlFailed))
        case Some(liveYaml) => (UnifiedText(liveYaml, proposedYaml, header), None)
  }

  function DiffDoc<O>(api: Api<O>, objects: Store<O>, doc: string, defaultNs: string): DiffResult {
    match api.parse(doc)
    case Unreadable(reason) => DiffResult(EMPTY_GVK, "", "", "", Some(ParseFailed(reason)))
    case Readable(gvk, name, namespace, manifest) =>
      match api.mapping(gvk)
      case None => DiffResult(gvk, "", name, "", Some(NoMapping(gvk)))
      case Some(m) =>
        var ns := if m.namespaced && namespace == "" then defaultNs else namespace;
        var t := TargetFor(m, ns, name);
        if api.fetchError(t).Some? then DiffResult(gvk, ns, name, "", Some(FetchFailed(api.fetchError(t).value)))
        else
          match api.encode(manifest)
          case None => DiffResult(gvk, ns, name, "", Some(EncodeFailed))
          case Some(json) =>
            match api.patch(t, Live(objects, t), json)
            case Rejected(reason) => DiffResult(gvk, ns, name, "", Some(PatchFailed(reason)))
            case Accepted(proposed) =>
              var (diff, error) := RenderDiff(api, Live(objects, t), proposed, DiffLabel(gvk, ns, name));
              DiffResult(gvk, ns, name, diff, error)
  }

  function DiffAll<O>(api: Api<O>, objects: Store<O>, docs: seq<string>, defaultNs: string): (r: seq<DiffResult>)
    ensures |r| == |docs|
  {
    if docs == [] then []
    else [DiffDoc(api, objects, docs[0], defaultNs)] + DiffAll(api, objects, docs[1..], defaultNs)
  }

  // ---- the imperative form ---------------------------------------------------

  class Cluster<O> {
    var objects: Store<O>

    constructor (initial: Store<O>)
      ensures objects == initial
    {
      objects := initial;
    }

    method Get(api: Api<O>, t: Target) returns (live: Option<O>, error: Option<string>)
      ensures error == api.fetchError(t)
      ensures error.None? ==> live == Live(objects, t)
    {
      error := api.fetchError(t);
      live := if t in objects then Some(objects[t]) else None;
    }

    method Patch(api: Api<O>, t: Target, json: string, dryRun: bool) returns (r: Patched<O>)
      modifies this
      ensures r == api.patch(t, Live(old(objects), t), json)
      ensures objects == if r.Accepted? && !dryRun then old(objects)[t := r.manifest] else old(objects)
    {
      r := api.patch(t, if t in objects then Some(objects[t]) else None, json);
      if r.Accepted? && !dryRun {
        objects := objects[t := r.manifest];
      }
    }
  }

  method Apply<O>(cluster: Cluster<O>, api: Api<O>, data: string, defaultNs: string) returns (results: seq<Result>)
    modifies cluster
    ensures (results, cluster.objects) == ApplyAll(api, old(cluster.objects), Documents.Documents(data), defaultNs)
  {
    results := [];
    var docs := SplitDocuments(data);
    var i := 0;
    ghost var target := ApplyAll(api, cluster.objects, docs, defaultNs);
    assert docs[0..] == docs && [] + target.0 == target.0;
    while i < |docs|
      invariant 0 <= i <= |docs|
      invariant var (rest, last) := ApplyAll(api, cluster.objects, docs[i..], defaultNs);
                results + rest == target.0 && last == target.1
    {
      assert docs[i..][1..] == docs[i + 1..];
      var result := ApplyOne(cluster, api, docs[i], defaultNs);
      Assoc(results, [result], ApplyAll(api, cluster.objects, docs[i + 1..], defaultNs).0);
      results := results + [result];
      i := i + 1;
    }
    assert docs[i..] == [] && results + [] == results;
  }

  /** One pass of Apply's loop, with its early exits. */
  method ApplyOne<O>(cluster: Cluster<O>, api: Api<O>, doc: string, defaultNs: string) returns (res: Result)
    modifies cluster
    ensures (res, cluster.objects) == ApplyDoc(api, old(cluster.objects), doc, defaultNs)
  {
    var parsed := api.parse(doc);
    if parsed.Unreadable? {
      return Result(EMPTY_GVK, "", "", Some(ParseFailed(parsed.reason)));
    }
    var mapping := api.mapping(parsed.gvk);
    if mapping.None? {
      return Result(parsed.gvk, "", parsed.name, Some(NoMapping(parsed.gvk)));
    }
    var ns := parsed.namespace;
    if mapping.value.namespaced && ns == "" {
      ns := defaultNs;
    }
    var json := api.encode(parsed.manifest);
    if json.None? {
      return Result(parsed.gvk, ns, parsed.name, Some(EncodeFailed));
    }
    var patched := cluster.Patch(api, TargetFor(mapping.value, ns, parsed.name), json.value, false);
    res := Result(parsed.gvk, ns, parsed.name, if patched.Accepted? then None else Some(PatchFailed(patched.reason)));
  }

  method Diff<O>(cluster: Cluster<O>, api: Api<O>, data: string, defaultNs: string) returns (results: seq<DiffResult>)
    modifies cluster
    ensures cluster.objects == old(cluster.objects)
    ensures results == DiffAll(api, cluster.objects, Documents.Documents(data), defaultNs)
  {
    results := [];
    var docs := SplitDocuments(data);
    var i := 0;
    ghost var objects := cluster.objects;
    ghost var all := DiffAll(api, objects, docs, defaultNs);
    assert docs[0..] == docs && [] + all == all;
    while i < |docs|
      invariant 0 <= i <= |docs| && cluster.objects == objects
      invariant results + DiffAll(api, objects, docs[i..], defaultNs) == all
    {
      var result := DiffOne(cluster, api, docs[i], defaultNs);
      DiffTail(api, objects, docs, defaultNs, i);
      Assoc(results, [result], DiffAll(api, objects, docs[i + 1..], defaultNs));
      results := results + [result];
      i := i + 1;
    }
    assert docs[i..] == [] && results + [] == results;
  }

  lemma DiffTail<O>(api: Api<O>, objects: Store<O>, docs: seq<string>, ns: string, i: nat)
    requires i < |docs|
    ensures DiffAll(api, objects, docs[i..], ns) == [DiffDoc(api, objects, docs[i], ns)] + DiffAll(api, objects, docs[i + 1..], ns)
  {
    assert docs[i..][1..] == docs[i + 1..];
  }

  /** One pass of Diff's loop: fetch, dry-run, render. */
  method DiffOne<O>(cluster: Cluster<O>, api: Api<O>, doc: string, defaultNs: string) returns (res: DiffResult)
    modifies cluster
    ensures cluster.objects == old(cluster.objects)
    ensures res == DiffDoc(api, cluster.objects, doc, defaultNs)
  {
    var parsed := api.parse(doc);
    if parsed.Unreadable? {
      return DiffResult(EMPTY_GVK, "", "", "", Some(ParseFailed(parsed.reason)));
    }
    var mapping := api.mapping(parsed.gvk);
    if mapping.None? {
      return DiffResult(parsed.gvk, "", parsed.name, "", Some(NoMapping(parsed.gvk)));
    }
    var ns := parsed.namespace;
    if mapping.value.namespaced && ns == "" {
      ns := defaultNs;
    }
    var t := TargetFor(mapping.value, ns, parsed.name);
    var live, fetchError := cluster.Get(api, t);
    if fetchError.Some? {
      return DiffResult(parsed.gvk, ns, parsed.name, "", Some(FetchFailed(fetchError.value)));
    }
    var json := api.encode(parsed.manifest);
    if json.None? {
      return DiffResult(parsed.gvk, ns, parsed.name, "", Some(EncodeFailed));
    }
    var proposed := cluster.Patch(api, t, json.value, true);
    if proposed.Rejected? {
      return DiffResult(parsed.gvk, ns, parsed.name, "", Some(PatchFailed(proposed.reason)));
    }
    var (diff, error) := RenderDiff(api, live, proposed.manifest, DiffLabel(parsed.gvk, ns, parsed.name));
    res := DiffResult(parsed.gvk, ns, parsed.name, diff, error);
  }

  predicate HasContent(r: DiffResult) { r.error.Some? || TrimSpace(r.diff) != "" }

  method DiffHasContent(results: seq<DiffResult>) returns (found: bool)
    ensures found <==> exists k :: 0 <= k < |results| && HasContent(results[k])
  {
    for i := 0 to |results|
      invariant forall k :: 0 <= k < i ==> !HasContent(results[k])
    {
      if HasContent(results[i]) {
        return true;
      }
    }
    return false;
  }

  // ---- the preview is faithful -----------------------------------------------

  /** The state Apply has reached before document k. */
  ghost function StateBefore<O>(api: Api<O>, objects: Store<O>, docs: seq<string>, ns: string, k: nat): Store<O>
    requires k <= |docs|
    decreases k
  {
    if k == 0 then objects
    else StateBefore(api, ApplyDoc(api, objects, docs[0], ns).1, docs[1..], ns, k - 1)
  }

  lemma {:induction false} ResultsAt<O>(api: Api<O>, objects: Store<O>, docs: seq<string>, ns: string, k: nat)
    requires k < |docs|
    ensures DiffAll(api, objects, docs, ns)[k] == DiffDoc(api, objects, docs[k], ns)
    ensures ApplyAll(api, objects, docs, ns).0[k]
         == ApplyDoc(api, StateBefore(api, objects, docs, ns, k), docs[k], ns).0
    decreases k
  {
    if k > 0 {
      var next := ApplyDoc(api, objects, docs[0], ns).1;
      ResultsAt(api, objects, docs[1..], ns, k - 1);
      ResultsAt(api, next, docs[1..], ns, k - 1);
    }
  }

  ghost predicate Unresolved(error: Option<Failure>) {
    error.Some? && (error.value.ParseFailed? || error.value.NoMapping?)
  }

  ghost predicate SameReport(shown: DiffResult, done: Result) {
    && shown.gvk == done.gvk && shown.namespace == done.namespace && shown.name == done.name
    && (Unresolved(shown.error) || Unresolved(done.error) ==> shown.error == done.error)
  }

  lemma DocumentIdentity<O>(api: Api<O>, before: Store<O>, later: Store<O>, doc: string, ns: string)
    ensures SameReport(DiffDoc(api, before, doc, ns), ApplyDoc(api, later, doc, ns).0)
  {
  }

  /** Diff and Apply report the same documents: the same identities in the same order, and
      the same parse and mapping failures. */
  lemma PreviewIdentities<O>(api: Api<O>, objects: Store<O>, docs: seq<string>, ns: string)
    ensures var shown, done := DiffAll(api, objects, docs, ns), ApplyAll(api, objects, docs, ns).0;
            |shown| == |done| == |docs| && forall k :: 0 <= k < |docs| ==> SameReport(shown[k], done[k])
  {
    var shown, done := DiffAll(api, objects, docs, ns), ApplyAll(api, objects, docs, ns).0;
    forall k | 0 <= k < |docs| ensures SameReport(shown[k], done[k]) {
      ResultsAt(api, objects, docs, ns, k);
      DocumentIdentity(api, objects, StateBefore(api, objects, docs, ns, k), docs[k], ns);
    }
  }

  /** The object a document addresses, when it resolves and encodes. */
  ghost function Addressed<O>(api: Api<O>, doc: string, ns: string): Option<(Target, string)> {
    match api.parse(doc)
    case Unreadable(_) => None
    case Readable(gvk, name, namespace, manifest) =>
      if api.mapping(gvk).None? || api.encode(manifest).None? then None
      else
        var m := api.mapping(gvk).value;
        Some((TargetFor(m, if m.namespaced && namespace == "" then ns else namespace, name), api.encode(manifest).value))
  }

  /** What the server answers Diff's dry run of a document with. */
  ghost function Proposal<O>(api: Api<O>, objects: Store<O>, doc: string, ns: string): Option<(Target, O)> {
    var a := Addressed(api, doc, ns);
    if a.None? then None
    else
      var (t, json) := a.value;
      var p := api.patch(t, Live(objects, t), json);
      if p.Rejected? then None else Some((t, p.manifest))
  }

  ghost predicate Touches<O>(api: Api<O>, doc: string, ns: string, t: Target) {
    Addressed(api, doc, ns).Some? && Addressed(api, doc, ns).value.0 == t
  }

  ghost predicate DistinctTargets<O>(api: Api<O>, docs: seq<string>, ns: string) {
    forall i, j, t :: 0 <= i < j < |docs| && Touches(api, docs[i], ns, t) ==> !Touches(api, docs[j], ns, t)
  }

  lemma ApplyDocStores<O>(api: Api<O>, objects: Store<O>, doc: string, ns: string)
    ensures var (res, next) := ApplyDoc(api, objects, doc, ns);
            var p := Proposal(api, objects, doc, ns);
            && (p.Some? <==> res.error.None?)
            && next == if p.Some? then objects[p.value.0 := p.value.1] else objects
  {
  }

  /** Documents that do not address t leave it alone. */
  lemma {:induction false} ApplyFrames<O>(api: Api<O>, objects: Store<O>, docs: seq<string>, ns: string, t: Target)
    requires forall k :: 0 <= k < |docs| ==> !Touches(api, docs[k], ns, t)
    ensures Live(ApplyAll(api, objects, docs, ns).1, t) == Live(objects, t)
    decreases |docs|
  {
    if docs != [] {
      ApplyDocStores(api, objects, docs[0], ns);
      assert !Touches(api, docs[0], ns, t);
      ApplyFrames(api, ApplyDoc(api, objects, docs[0], ns).1, docs[1..], ns, t);
    }
  }

  // ---- which object a document is about ------------------------------------------------

  /** The document is readable and maps to a resource; t is that resource's object of its name, in
      its own namespace or else the default one, or in none when the resource has no namespaces. */
  ghost predicate IsAbout<O>(api: Api<O>, doc: string, ns: string, t: Target) {
    && api.parse(doc).Readable?
    && var d := api.parse(doc);
    && api.mapping(d.gvk).Some?
    && t.resource == api.mapping(d.gvk).value.resource && t.name == d.name
    && (if !api.mapping(d.gvk).value.namespaced then t.namespace == None
        else t.namespace == Some(if d.namespace != "" then d.namespace else ns))
  }

  /** What Apply makes of one document: exactly the object it is about is patched, with the
      encoded manifest and what is live there, and gets what the server accepts. */
  lemma ApplyPatchesItsObject<O>(api: Api<O>, objects: Store<O>, doc: string, ns: string, t: Target)
    ensures var (res, next) := ApplyDoc(api, objects, doc, ns);
            if !IsAbout(api, doc, ns, t) then Live(next, t) == Live(objects, t)
            else
              var json := api.encode(api.parse(doc).manifest);
              if json.None? then res.error == Some(EncodeFailed) && next == objects
              else
                match api.patch(t, Live(objects, t), json.value)
                case Rejected(reason) => res.error == Some(PatchFailed(reason)) && next == objects
                case Accepted(stored) => res.error.None? && next == objects[t := stored]
  {
  }

  /** What Diff makes of it: the same object is fetched and dry-run, in that order. */
  lemma DiffAsksForItsObject<O>(api: Api<O>, objects: Store<O>, doc: string, ns: string, t: Target)
    requires IsAbout(api, doc, ns, t)
    ensures var r, json := DiffDoc(api, objects, doc, ns), api.encode(api.parse(doc).manifest);
            && r.gvk == api.parse(doc).gvk && r.name == t.name
            && (t.namespace.Some? ==> r.namespace == t.namespace.value)
            && (if api.fetchError(t).Some? then r.error == Some(FetchFailed(api.fetchError(t).value))
                else if json.None? then r.error == Some(EncodeFailed)
                else
                  match api.patch(t, Live(objects, t), json.value)
                  case Rejected(reason) => r.error == Some(PatchFailed(reason))
                  case Accepted(proposed) =>
                    && (r.error.None? <==>
                          api.yaml(proposed).Some? && (t in objects ==> api.yaml(objects[t]).Some?))
                    && (r.error.None? ==> ReadsAs(api, Live(objects, t), proposed, r.diff, DiffLabel(r.gvk, r.namespace, r.name))))
  {
    var r := DiffDoc(api, objects, doc, ns);
    AddressedIsAbout(api, doc, ns, t);
    if r.error.None? {
      DiffShowsProposal(api, objects, doc, ns);
    }
  }

  /** A document that cannot be read or mapped is about nothing, and says why. */
  lemma UnresolvedIsReported<O>(api: Api<O>, objects: Store<O>, doc: string, ns: string)
    requires forall t :: !IsAbout(api, doc, ns, t)
    ensures ApplyDoc(api, objects, doc, ns).1 == objects
    ensures Unresolved(ApplyDoc(api, objects, doc, ns).0.error) && Unresolved(DiffDoc(api, objects, doc, ns).error)
  {
    if api.parse(doc).Readable? && api.mapping(api.parse(doc).gvk).Some? {
      var d := api.parse(doc);
      var m := api.mapping(d.gvk).value;
      assert IsAbout(api, doc, ns, TargetFor(m, if m.namespaced && d.namespace == "" then ns else d.namespace, d.name));
    }
  }

  lemma AddressedIsAbout<O>(api: Api<O>, doc: string, ns: string, t: Target)
    ensures Touches(api, doc, ns, t) <==> IsAbout(api, doc, ns, t) && api.encode(api.parse(doc).manifest).Some?
  {
  }

  /** Over a whole stream, an object no document is about is left alone. */
  lemma ApplyTouchesOnlyItsObjects<O>(api: Api<O>, objects: Store<O>, docs: seq<string>, ns: string, t: Target)
    requires forall k :: 0 <= k < |docs| ==> !IsAbout(api, docs[k], ns, t)
    ensures Live(ApplyAll(api, objects, docs, ns).1, t) == Live(objects, t)
  {
    forall k | 0 <= k < |docs| ensures !Touches(api, docs[k], ns, t) {
      AddressedIsAbout(api, docs[k], ns, t);
    }
    ApplyFrames(api, objects, docs, ns, t);
  }

  /** And with distinct objects, each document's own gets what the server makes of what was there. */
  lemma ApplyStoresEach<O>(api: Api<O>, objects: Store<O>, docs: seq<string>, ns: string, k: nat, t: Target)
    requires k < |docs| && IsAbout(api, docs[k], ns, t)
    requires forall i, u :: 0 <= i < |docs| && i != k && IsAbout(api, docs[i], ns, u) ==> u != t
    requires DistinctTargets(api, docs, ns)
    ensures var json := api.encode(api.parse(docs[k]).manifest);
            var p := if json.None? then Rejected("") else api.patch(t, Live(objects, t), json.value);
            Live(ApplyAll(api, objects, docs, ns).1, t) == if p.Accepted? then Some(p.manifest) else Live(objects, t)
  {
    AddressedIsAbout(api, docs[k], ns, t);
    if api.encode(api.parse(docs[k]).manifest).Some? {
      PreviewIsStored(api, objects, docs, ns, k);
    } else {
      forall i | 0 <= i < |docs| ensures !Touches(api, docs[i], ns, t) {
        AddressedIsAbout(api, docs[i], ns, t);
      }
      ApplyFrames(api, objects, docs, ns, t);
    }
  }

  /** With distinct targets, what the server proposes for document k against the original
      state is what Apply leaves at its target; a rejected document leaves its target alone. */
  lemma {:induction false} PreviewIsStored<O>(api: Api<O>, objects: Store<O>, docs: seq<string>, ns: string, k: nat)
    requires k < |docs| && DistinctTargets(api, docs, ns) && Addressed(api, docs[k], ns).Some?
    ensures var t := Addressed(api, docs[k], ns).value.0;
            var p := Proposal(api, objects, docs[k], ns);
            Live(ApplyAll(api, objects, docs, ns).1, t) == if p.Some? then Some(p.value.1) else Live(objects, t)
    decreases k
  {
    var t := Addressed(api, docs[k], ns).value.0;
    assert Touches(api, docs[k], ns, t);
    var next := ApplyDoc(api, objects, docs[0], ns).1;
    ApplyDocStores(api, objects, docs[0], ns);
    if k == 0 {
      forall j | 0 <= j < |docs[1..]| ensures !Touches(api, docs[1..][j], ns, t) {
        assert docs[1..][j] == docs[j + 1];
      }
      ApplyFrames(api, next, docs[1..], ns, t);
    } else {
      assert !Touches(api, docs[0], ns, t);
      assert Live(next, t) == Live(objects, t);
      assert docs[1..][k - 1] == docs[k];
      forall i, j, u | 0 <= i < j < |docs[1..]| && Touches(api, docs[1..][i], ns, u)
        ensures !Touches(api, docs[1..][j], ns, u)
      {
        assert docs[1..][i] == docs[i + 1] && docs[1..][j] == docs[j + 1];
      }
      PreviewIsStored(api, next, docs[1..], ns, k - 1);
    }
  }

  /** The diff, read back by its tags, has the live object's YAML lines on one side - none for a
      new object - and the stored object's on the other; it is empty for equal texts. */
  ghost predicate ReadsAs<O>(api: Api<O>, live: Option<O>, stored: O, diff: string, header: string) {
    && api.yaml(stored).Some?
    && var y, shown := api.yaml(stored).value, Decode(SplitLines(Body(diff, header)));
    if live.None? then Side(shown, Added) == [] && Side(shown, Removed) == SplitLines(y)
    else
      && api.yaml(live.value).Some?
      && var was := api.yaml(live.value).value;
      if was == y then diff == "" else Side(shown, Added) == SplitLines(was) && Side(shown, Removed) == SplitLines(y)
  }

  lemma RenderReadsAs<O>(api: Api<O>, live: Option<O>, proposed: O, header: string)
    requires RenderDiff(api, live, proposed, header).1.None?
    ensures ReadsAs(api, live, proposed, RenderDiff(api, live, proposed, header).0, header)
  {
    var y := api.yaml(proposed).value;
    if live.None? {
      AddIsCorrect(y, header);
    } else {
      DiffIsCorrect(api.yaml(live.value).value, y, header);
    }
  }

  /** A document that diffs without error shows what the server proposes for it. */
  lemma DiffShowsProposal<O>(api: Api<O>, objects: Store<O>, doc: string, ns: string)
    requires DiffDoc(api, objects, doc, ns).error.None?
    ensures var r, p := DiffDoc(api, objects, doc, ns), Proposal(api, objects, doc, ns);
            && Addressed(api, doc, ns).Some? && p.Some? && p.value.0 == Addressed(api, doc, ns).value.0
            && ReadsAs(api, Live(objects, p.value.0), p.value.1, r.diff, DiffLabel(r.gvk, r.namespace, r.name))
  {
    var r, p := DiffDoc(api, objects, doc, ns), Proposal(api, objects, doc, ns);
    RenderReadsAs(api, Live(objects, p.value.0), p.value.1, DiffLabel(r.gvk, r.namespace, r.name));
  }

  /** With distinct targets, the diff the user sees for a document is between what is live and
      what Apply then stores: both can be read off it. */
  lemma PreviewShowsStored<O>(api: Api<O>, objects: Store<O>, docs: seq<string>, ns: string, k: nat)
    requires k < |docs| && DistinctTargets(api, docs, ns) && DiffAll(api, objects, docs, ns)[k].error.None?
    ensures Addressed(api, docs[k], ns).Some?
    ensures var r, t := DiffAll(api, objects, docs, ns)[k], Addressed(api, docs[k], ns).value.0;
            var stored := Live(ApplyAll(api, objects, docs, ns).1, t);
            && stored.Some?
            && ReadsAs(api, Live(objects, t), stored.value, r.diff, DiffLabel(r.gvk, r.namespace, r.name))
  {
    ResultsAt(api, objects, docs, ns, k);
    DiffShowsProposal(api, objects, docs[k], ns);
    PreviewIsStored(api, objects, docs, ns, k);
  }

  /** Encoding to YAML loses nothing and is never empty. */
  ghost predicate FaithfulYaml<O(!new)>(api: Api<O>) {
    && (forall a, b :: api.yaml(a).Some? && api.yaml(a) == api.yaml(b) ==> a == b)
    && (forall a :: api.yaml(a) != Some(""))
  }

  /** A document is previewed as "no change" exactly when the server would store what is there. */
  lemma NoContentMeansNoChange<O(!new)>(api: Api<O>, objects: Store<O>, doc: string, ns: string)
    requires FaithfulYaml(api)
    ensures var r := DiffDoc(api, objects, doc, ns);
            var p := Proposal(api, objects, doc, ns);
            && (r.error.None? ==> p.Some?)
            && (r.error.None? ==> (!HasContent(r) <==> Live(objects, p.value.0) == Some(p.value.1)))
  {
    var r := DiffDoc(api, objects, doc, ns);
    if r.error.None? {
      var (t, proposed) := Proposal(api, objects, doc, ns).value;
      var header := DiffLabel(r.gvk, r.namespace, r.name);
      var proposedYaml := api.yaml(proposed).value;
      assert api.yaml(proposed) != Some("");
      if t in objects {
        var liveYaml := api.yaml(objects[t]).value;
        DiffIsCorrect(liveYaml, proposedYaml, header);
        if liveYaml != proposedYaml {
          NonBlankPrefix(DiffHeader(header), Render(Script(SplitLines(liveYaml), SplitLines(proposedYaml), 0, 0)));
        }
      } else {
        NonBlankPrefix(DiffHeader(header), Render(Tagged(Added, SplitLines(proposedYaml))));
      }
    }
  }

  ghost predicate Quiet(results: seq<DiffResult>) {
    forall k :: 0 <= k < |results| ==> !HasContent(results[k])
  }

  /** If the preview has nothing to show, Apply changes nothing - whether or not several
      documents address the same object. */
  lemma {:induction false} EmptyPreviewIsNoOp<O(!new)>(api: Api<O>, objects: Store<O>, docs: seq<string>, ns: string)
    requires FaithfulYaml(api) && Quiet(DiffAll(api, objects, docs, ns))
    ensures ApplyAll(api, objects, docs, ns).1 == objects
    decreases |docs|
  {
    if docs != [] {
      var shown := DiffAll(api, objects, docs, ns);
      assert !HasContent(shown[0]);
      NoContentMeansNoChange(api, objects, docs[0], ns);
      ApplyDocStores(api, objects, docs[0], ns);
      var (t, p) := Proposal(api, objects, docs[0], ns).value;
      assert objects[t := p] == objects;
      assert DiffAll(api, objects, docs[1..], ns) == shown[1..];
      EmptyPreviewIsNoOp(api, objects, docs[1..], ns);
    }
  }

  /** With distinct targets and no diff error, a no-op apply is previewed as quiet. */
  lemma NoOpIsQuiet<O(!new)>(api: Api<O>, objects: Store<O>, docs: seq<string>, ns: string, k: nat)
    requires FaithfulYaml(api) && DistinctTargets(api, docs, ns) && k < |docs|
    requires DiffDoc(api, objects, docs[k], ns).error.None?
    requires ApplyAll(api, objects, docs, ns).1 == objects
    ensures !HasContent(DiffDoc(api, objects, docs[k], ns))
  {
    NoContentMeansNoChange(api, objects, docs[k], ns);
    PreviewIsStored(api, objects, docs, ns, k);
  }

  /** When every document diffs without error and the targets are distinct, the preview is
      empty exactly when Apply changes nothing. */
  lemma PreviewShowsEveryChange<O(!new)>(api: Api<O>, objects: Store<O>, docs: seq<string>, ns: string)
    requires FaithfulYaml(api) && DistinctTargets(api, docs, ns)
    requires forall k :: 0 <= k < |docs| ==> DiffAll(api, objects, docs, ns)[k].error.None?
    ensures Quiet(DiffAll(api, objects, docs, ns)) <==> ApplyAll(api, objects, docs, ns).1 == objects
  {
    var shown := DiffAll(api, objects, docs, ns);
    if ApplyAll(api, objects, docs, ns).1 == objects {
      forall k | 0 <= k < |docs| ensures !HasContent(shown[k]) {
        ResultsAt(api, objects, docs, ns, k);
        assert shown[k].error.None?;
        NoOpIsQuiet(api, objects, docs, ns, k);
      }
    } else if Quiet(shown) {
      EmptyPreviewIsNoOp(api, objects, docs, ns);
    }
  }
}
