/** Which snapshots a page may apply, over any number of engines, stores and pages
    (internal/engine/engine.go, internal/engine/store.go, internal/view/resource.go).

    View ids come from one process-wide counter. A flush loads the store's id, takes its
    snapshot and sends later; messages are delivered late and in any order, long after their
    store was replaced or their engine disposed. The UI loop builds a page and enters it in one
    go, and delivers messages only in between; the flushing loops run all the time. Every
    session registers the same kinds (internal/k8s/session.go). */
module Routing {
  import opened Text

  datatype StoreRec = StoreRec(engine: nat, kind: string, viewID: nat)

  /** A page and the last store it stamped; viewID 0 means OnEnter never got that far. */
  datatype PageRec = PageRec(engine: nat, kind: string, viewID: nat, stamped: Option<nat>)

  /** A flush or message: the id it loaded, which store it came from and when it loaded it. */
  datatype Snap = Snap(kind: string, id: nat, origin: nat, loadedAt: nat)

  /** The UI loop's place: between messages, in OnEnter before the id is taken, or between
      taking the id and stamping it on the store. */
  datatype Ui = Free | Opening(page: nat) | Stamping(page: nat, store: nat)

  datatype State = State(
    kinds: set<string>,            // what every session registers
    clock: nat,
    viewSeq: nat,
    stores: seq<StoreRec>,
    pages: seq<PageRec>,
    ui: Ui,
    owners: map<nat, nat>,         // each stamped id and the store it was stamped on
    stampedAt: map<nat, nat>,
    inFlight: set<Snap>)

  datatype Step =
    | BuildStore(engine: nat, kind: string)
    | OpenPage(engine: nat, kind: string)
    | Reenter(page: nat)
    | TakeId(store: nat)
    | Stamp
    | LoadId(store: nat)

  function Start(kinds: set<string>): State { State(kinds, 0, 0, [], [], Free, map[], map[], {}) }

  predicate Enabled(s: State, step: Step) {
    match step
    case BuildStore(_, k) => k in s.kinds
    case OpenPage(_, _) => s.ui.Free?
    case Reenter(p) => s.ui.Free? && p < |s.pages|
    case TakeId(st) =>
      && s.ui.Opening? && s.ui.page < |s.pages| && st < |s.stores|
      && s.pages[s.ui.page].kind == s.stores[st].kind && s.pages[s.ui.page].engine == s.stores[st].engine
    case Stamp => s.ui.Stamping? && s.ui.page < |s.pages| && s.ui.store < |s.stores|
    case LoadId(st) => st < |s.stores|
  }

  /** OnEnter goes on only when the kind is registered; otherwise Ensure fails and it is over. */
  function Entering(s: State, kind: string, p: nat): Ui { if kind in s.kinds then Opening(p) else Free }

  function Do(s: State, step: Step): State
    requires Enabled(s, step)
  {
    var now := s.(clock := s.clock + 1);
    match step
    case BuildStore(e, k) => now.(stores := s.stores + [StoreRec(e, k, 0)])
    case OpenPage(e, k) => now.(pages := s.pages + [PageRec(e, k, 0, None)], ui := Entering(s, k, |s.pages|))
    case Reenter(p) => now.(ui := Entering(s, s.pages[p].kind, p))
    case TakeId(st) =>
      var p, id := s.ui.page, s.viewSeq + 1;
      now.(viewSeq := id, pages := s.pages[p := s.pages[p].(viewID := id, stamped := Some(st))], ui := Stamping(p, st))
    case Stamp =>
      var st, id := s.ui.store, s.pages[s.ui.page].viewID;
      now.(stores := s.stores[st := s.stores[st].(viewID := id)], ui := Free,
           owners := s.owners[id := st], stampedAt := s.stampedAt[id := s.clock])
    case LoadId(st) =>
      now.(inFlight := s.inFlight + {Snap(s.stores[st].kind, s.stores[st].viewID, st, s.clock)})
  }

  /** The page's test in Update. A message stays in flight for ever here, so it may be delivered
      at any later time, to any page. */
  predicate Accepts(p: PageRec, m: Snap) { m.kind == p.kind && m.id == p.viewID }

  /** A message the UI loop may hand to page p now. */
  ghost predicate Deliverable(s: State, p: nat, m: Snap) { s.ui.Free? && p < |s.pages| && m in s.inFlight }

  ghost predicate Leads(s: State, steps: seq<Step>, t: State)
    decreases |steps|
  {
    if steps == [] then s == t else Enabled(s, steps[0]) && Leads(Do(s, steps[0]), steps[1..], t)
  }

  ghost predicate Reachable(s: State) { exists kinds, steps :: Leads(Start(kinds), steps, s) }

  // ---- the invariant ---------------------------------------------------------------

  /** A page without an id is of a kind no session registers, or is just being opened. */
  ghost predicate KindsInv(s: State) {
    && (forall st :: 0 <= st < |s.stores| ==> s.stores[st].kind in s.kinds)
    && (forall p :: 0 <= p < |s.pages| && s.pages[p].viewID == 0 ==>
          s.pages[p].kind !in s.kinds || s.ui == Opening(p))
  }

  /** A page's id was issued by the sequence and, once stamped, names the store it was stamped on. */
  ghost predicate PagesInv(s: State) {
    && (forall p :: 0 <= p < |s.pages| ==> s.pages[p].viewID <= s.viewSeq)
    && (forall p :: 0 <= p < |s.pages| && s.pages[p].viewID > 0 ==> StampedOn(s, s.pages[p]))
    && (s.ui.Stamping? ==>
          && s.ui.page < |s.pages| && s.ui.store < |s.stores|
          && s.pages[s.ui.page].stamped == Some(s.ui.store)
          && s.pages[s.ui.page].viewID == s.viewSeq && s.viewSeq > 0 && s.viewSeq !in s.owners)
  }

  ghost predicate StampedOn(s: State, p: PageRec) {
    && p.stamped.Some? && p.stamped.value < |s.stores|
    && s.stores[p.stamped.value].kind == p.kind && s.stores[p.stamped.value].engine == p.engine
    && (p.viewID in s.owners ==> s.owners[p.viewID] == p.stamped.value)
    && (p.viewID !in s.owners ==> s.ui.Stamping? && p.stamped == Some(s.ui.store) && p.viewID == s.viewSeq)
  }

  /** An id on a store or in flight was stamped on that very store, earlier. */
  ghost predicate OwnersInv(s: State) {
    && s.owners.Keys == s.stampedAt.Keys
    && (forall id | id in s.owners :: 0 < id <= s.viewSeq && s.stampedAt[id] < s.clock)
    && (forall st :: 0 <= st < |s.stores| && s.stores[st].viewID > 0 ==>
          s.stores[st].viewID in s.owners && s.owners[s.stores[st].viewID] == st)
    && (forall m | m in s.inFlight :: Loaded(s, m))
  }

  ghost predicate Loaded(s: State, m: Snap) {
    && m.origin < |s.stores| && s.stores[m.origin].kind == m.kind && m.loadedAt < s.clock
    && (m.id > 0 ==>
          && m.id in s.owners && s.owners[m.id] == m.origin
          && m.id in s.stampedAt && s.stampedAt[m.id] < m.loadedAt)
  }

  ghost predicate Inv(s: State) { KindsInv(s) && PagesInv(s) && OwnersInv(s) }

  lemma BuildStep(s: State, step: Step)
    requires Inv(s) && Enabled(s, step) && step.BuildStore?
    ensures Inv(Do(s, step))
  {
    var t := Do(s, step);
    assert forall p :: 0 <= p < |s.pages| && s.pages[p].viewID > 0 ==> StampedOn(s, s.pages[p]);
    assert forall st :: 0 <= st < |s.stores| ==> t.stores[st] == s.stores[st];
    assert forall m | m in s.inFlight :: Loaded(s, m);
  }

  lemma LoadStep(s: State, st: nat)
    requires Inv(s) && Enabled(s, LoadId(st))
    ensures Inv(Do(s, LoadId(st)))
  {
    assert forall p :: 0 <= p < |s.pages| && s.pages[p].viewID > 0 ==> StampedOn(s, s.pages[p]);
    assert forall m | m in s.inFlight :: Loaded(s, m);
  }

  lemma OpenStep(s: State, step: Step)
    requires Inv(s) && Enabled(s, step) && (step.OpenPage? || step.Reenter?)
    ensures Inv(Do(s, step))
  {
    var t := Do(s, step);
    assert forall p :: 0 <= p < |s.pages| ==> t.pages[p] == s.pages[p];
    assert forall p :: 0 <= p < |s.pages| && s.pages[p].viewID > 0 ==> StampedOn(s, s.pages[p]);
    assert forall m | m in s.inFlight :: Loaded(s, m);
  }

  lemma TakeIdStep(s: State, st: nat)
    requires Inv(s) && Enabled(s, TakeId(st))
    ensures Inv(Do(s, TakeId(st)))
  {
    var t := Do(s, TakeId(st));
    forall q | 0 <= q < |t.pages| && t.pages[q].viewID > 0 ensures StampedOn(t, t.pages[q]) {
      if q != s.ui.page {
        assert StampedOn(s, s.pages[q]);
      }
    }
    assert forall m | m in s.inFlight :: Loaded(s, m);
  }

  lemma StampStep(s: State)
    requires Inv(s) && Enabled(s, Stamp)
    ensures Inv(Do(s, Stamp))
  {
    var t := Do(s, Stamp);
    forall q | 0 <= q < |t.pages| && t.pages[q].viewID > 0 ensures StampedOn(t, t.pages[q]) {
      assert StampedOn(s, s.pages[q]);
    }
    forall m | m in t.inFlight ensures Loaded(t, m) {
      assert Loaded(s, m);
    }
  }

  lemma StepInv(s: State, step: Step)
    requires Inv(s) && Enabled(s, step)
    ensures Inv(Do(s, step))
  {
    match step
    case TakeId(st) => TakeIdStep(s, st);
    case Stamp => StampStep(s);
    case OpenPage(_, _) => OpenStep(s, step);
    case Reenter(_) => OpenStep(s, step);
    case BuildStore(_, _) => BuildStep(s, step);
    case LoadId(st) => LoadStep(s, st);
  }

  lemma {:induction false} RunInv(s: State, steps: seq<Step>, t: State)
    requires Inv(s) && Leads(s, steps, t)
    ensures Inv(t)
    decreases |steps|
  {
    if steps != [] {
      StepInv(s, steps[0]);
      RunInv(Do(s, steps[0]), steps[1..], t);
    }
  }

  lemma ReachableInv(s: State)
    requires Reachable(s)
    ensures Inv(s)
  {
    var kinds, steps :| Leads(Start(kinds), steps, s);
    RunInv(Start(kinds), steps, s);
  }

  /** In every run, a page accepts a delivered snapshot only from the store its latest entry
      stamped - same kind, same engine - and only one loaded after that stamp. */
  lemma RoutingIsSafe(s: State, p: nat, m: Snap)
    requires Reachable(s) && Deliverable(s, p, m) && Accepts(s.pages[p], m)
    ensures s.pages[p].stamped == Some(m.origin)
    ensures m.origin < |s.stores| && s.stores[m.origin].engine == s.pages[p].engine
    ensures m.id in s.stampedAt && s.stampedAt[m.id] < m.loadedAt
  {
    ReachableInv(s);
    assert Loaded(s, m);
    assert s.pages[p].viewID > 0;
    assert StampedOn(s, s.pages[p]);
  }

  /** A page drops everything loaded before its latest stamp, whatever store it came from; one
      that has none drops everything. */
  lemma LateSnapshotsAreDropped(s: State, p: nat, m: Snap)
    requires Reachable(s) && Deliverable(s, p, m)
    requires s.pages[p].viewID !in s.stampedAt || m.loadedAt <= s.stampedAt[s.pages[p].viewID]
    ensures !Accepts(s.pages[p], m)
  {
    if Accepts(s.pages[p], m) {
      RoutingIsSafe(s, p, m);
    }
  }

  /** And it does accept them: once a page has entered on a store of its kind and engine, what that
      store sends next is for this page. */
  lemma EnteredPageIsServed(s: State, st: nat)
    requires Enabled(s, TakeId(st))
    ensures var p, entered := s.ui.page, Do(Do(s, TakeId(st)), Stamp);
            && Deliverable(Do(entered, LoadId(st)), p, Snap(s.stores[st].kind, s.viewSeq + 1, st, s.clock + 2))
            && Accepts(entered.pages[p], Snap(s.stores[st].kind, s.viewSeq + 1, st, s.clock + 2))
            && Do(entered, LoadId(st)).pages == entered.pages
  {
  }

  /** Opening or re-entering a page of a registered kind is on its way to such a store; one of any
      other kind stays without an id. */
  lemma OpeningEnters(s: State, step: Step)
    requires Enabled(s, step) && (step.OpenPage? || step.Reenter?)
    ensures var t := Do(s, step);
            var p := if step.OpenPage? then |s.pages| else step.page;
            && p < |t.pages| && t.ui == (if t.pages[p].kind in s.kinds then Opening(p) else Free)
            && (step.OpenPage? ==> t.pages == s.pages + [PageRec(step.engine, step.kind, 0, None)])
            && (step.Reenter? ==> t.pages == s.pages)
  {
  }
}
