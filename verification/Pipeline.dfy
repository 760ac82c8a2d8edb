/** The watch-to-page pipeline (internal/engine/store.go, internal/view/resource.go): informer
    handlers, the watch-error handler, the ticker loop, the terminal flush and the UI loop,
    interleaved at every access to shared state.

    A snapshot is not taken atomically: the phase and error are read under the lock, then
    HasSynced, then the cache. The UI loop receives messages in the order they were sent and
    hands each to the page on top of the stack. */
module Pipeline {
  import opened Text

  datatype Phase = Loading | Ready | Stale | Terminal

  datatype Remote<+R> = Remote(phase: Phase, rows: R, err: Option<string>)

  /** What the store is built with: the projection of a cache into rows, and its size. */
  datatype Kit<!C, !R> = Kit(project: C -> R, count: C -> nat)

  /** The shared state of one store and its informer. */
  datatype Store<C> = Store(
    cache: C, synced: bool,
    phase: Phase, err: Option<string>,
    dirty: bool, paused: bool, viewID: nat, stopped: bool)

  /** A snapshot being taken. */
  datatype Reading<+R> =
    | AtPhase
    | AtSync(phase: Phase, err: Option<string>)
    | AtRows(phase: Phase, err: Option<string>)
    | Taken(remote: Remote<R>)

  datatype LoopAt<+R> =
    | Idle | EdgeDirty | PauseCheck | Heart | HeartDirty | Swap | LoadId
    | Flush(id: nat, reading: Reading<R>)
    | Exited

  /** The ticker loop's place and its local variables. */
  datatype Loop<+R> = Loop(at: LoopAt<R>, syncedOnce: bool, sinceFlush: nat)

  datatype UiAt<+R> = Free | Stamping | Painting(reading: Reading<R>)

  /** The entered page and the UI loop's place in OnEnter. Missed is the last snapshot for this
      page that was handed to a drill-in above it, while no later one has been applied. */
  datatype Page<+R> = Page(id: nat, remote: Option<Remote<R>>, ui: UiAt<R>, onTop: bool, missed: Option<Remote<R>>)

  datatype TerminalAt<+R> = Quiet | Stopping | TerminalLoadId | TerminalFlush(id: nat, reading: Reading<R>)

  datatype Message<+R> = Message(id: nat, remote: Remote<R>)

  datatype State<C, R> = State(
    store: Store<C>,
    owed: nat,          // cache updates whose handler has not run
    handling: bool,     // onEvent between its lock section and its dirty store
    failing: bool,      // onWatchError between its lock section and its dirty store
    terminal: TerminalAt<R>,
    loop: Loop<R>,
    inbox: seq<Message<R>>,
    lastID: nat,
    page: Page<R>)

  datatype Step<C> =
    | Update(cache: C)
    | HandlerLocks | HandlerMarks
    | ErrorLocks(reason: string) | ErrorMarks
    | TerminalError(reason: string) | TerminalStep
    | Synced
    | Tick | LoopStep | LoopExit
    | Pause | Unpause | MarkDirty | Stop
    | Enter | UiStep | Deliver | Bury | Reveal

  const INTERVAL := 150
  const HEARTBEAT := 2000

  function Start<C, R>(cache: C): State<C, R> {
    State(Store(cache, false, Loading, None, false, false, 0, false), 0, false, false, Quiet,
          Loop(Idle, false, 0), [], 0, Page(0, None, Free, true, None))
  }

  // ---- the pieces ----------------------------------------------------------------

  /** Loading reads as Ready once the cache has synced. */
  function Upgrade(p: Phase, synced: bool): Phase { if p == Loading && synced then Ready else p }

  /** One more access of Snapshot(). */
  function Read<C, R>(kit: Kit<C, R>, store: Store<C>, r: Reading<R>): Reading<R> {
    match r
    case AtPhase => AtSync(store.phase, store.err)
    case AtSync(p, e) => AtRows(Upgrade(p, store.synced), e)
    case AtRows(p, e) => Taken(Remote(p, kit.project(store.cache), e))
    case Taken(_) => r
  }

  function OnEvent<C>(s: Store<C>): Store<C> {
    if s.phase == Terminal then s else s.(phase := Ready, err := None)
  }

  function OnTransient<C>(s: Store<C>, reason: string): Store<C> {
    if s.phase == Terminal then s else s.(phase := Stale, err := Some(reason))
  }

  /** The loop between flushes: its next place, and the dirty flag it leaves. */
  function Turn<C, R>(kit: Kit<C, R>, store: Store<C>, loop: Loop<R>): (Loop<R>, bool) {
    match loop.at
    case EdgeDirty => (loop.(at := PauseCheck), true)
    case PauseCheck => (loop.(at := if store.paused then Idle else Heart), store.dirty)
    case Heart =>
      var since := loop.sinceFlush + INTERVAL;
      var late := since >= HEARTBEAT && kit.count(store.cache) > 0;
      (Loop(if late then HeartDirty else Swap, loop.syncedOnce, since), store.dirty)
    case HeartDirty => (loop.(at := Swap), true)
    case Swap => (loop.(at := if store.dirty then LoadId else Idle), false)
    case LoadId => (loop.(at := Flush(store.viewID, AtPhase)), store.dirty)
    case _ => (loop, store.dirty)
  }

  function LoopNext<C, R>(kit: Kit<C, R>, s: State<C, R>): State<C, R> {
    if s.loop.at.Flush? then
      var Flush(id, r) := s.loop.at;
      if r.Taken? then
        s.(inbox := s.inbox + [Message(id, r.remote)], loop := s.loop.(at := Idle, sinceFlush := 0))
      else s.(loop := s.loop.(at := Flush(id, Read(kit, s.store, r))))
    else
      var (loop, dirty) := Turn(kit, s.store, s.loop);
      s.(store := s.store.(dirty := dirty), loop := loop)
  }

  function TickNext<C, R>(s: State<C, R>): State<C, R> {
    if !s.loop.syncedOnce && s.store.synced then s.(loop := s.loop.(syncedOnce := true, at := EdgeDirty))
    else s.(loop := s.loop.(at := PauseCheck))
  }

  function TerminalNext<C, R>(kit: Kit<C, R>, s: State<C, R>): State<C, R> {
    match s.terminal
    case Quiet => s
    case Stopping => s.(store := s.store.(stopped := true), terminal := TerminalLoadId)
    case TerminalLoadId => s.(terminal := TerminalFlush(s.store.viewID, AtPhase))
    case TerminalFlush(id, Taken(remote)) => s.(inbox := s.inbox + [Message(id, remote)], terminal := Quiet)
    case TerminalFlush(id, r) => s.(terminal := TerminalFlush(id, Read(kit, s.store, r)))
  }

  function UiNext<C, R>(kit: Kit<C, R>, s: State<C, R>): State<C, R> {
    var page := s.page;
    match page.ui
    case Free => s
    case Stamping => s.(store := s.store.(viewID := page.id), page := page.(ui := Painting(AtPhase)))
    case Painting(Taken(remote)) => s.(page := page.(remote := Some(remote), ui := Free))
    case Painting(r) => s.(page := page.(ui := Painting(Read(kit, s.store, r))))
  }

  function DeliverNext<C, R>(s: State<C, R>): State<C, R>
    requires s.inbox != []
  {
    var m := s.inbox[0];
    var page := s.page;
    s.(inbox := s.inbox[1..],
       page := if m.id != page.id then page
               else if page.onTop then page.(remote := Some(m.remote), missed := None)
               else page.(missed := Some(m.remote)))
  }

  predicate Enabled<C, R>(s: State<C, R>, step: Step<C>) {
    match step
    case HandlerLocks => s.owed > 0 && !s.handling
    case HandlerMarks => s.handling
    case ErrorLocks(_) => !s.failing && s.terminal.Quiet?
    case ErrorMarks => s.failing
    case TerminalError(_) => !s.failing && s.terminal.Quiet?
    case Tick => s.loop.at.Idle?
    case LoopExit => s.loop.at.Idle? && s.store.stopped
    case Enter => s.page.ui.Free?
    case Deliver => s.page.ui.Free? && s.inbox != []
    case Bury => s.page.ui.Free?
    case Reveal => s.page.ui.Free?
    case _ => true
  }

  function Do<C, R>(kit: Kit<C, R>, s: State<C, R>, step: Step<C>): State<C, R>
    requires Enabled(s, step)
  {
    match step
    case Update(c) => s.(store := s.store.(cache := c), owed := s.owed + 1)
    case HandlerLocks => s.(store := OnEvent(s.store), owed := s.owed - 1, handling := true)
    case HandlerMarks => s.(store := s.store.(dirty := true), handling := false)
    case ErrorLocks(reason) => s.(store := OnTransient(s.store, reason), failing := true)
    case ErrorMarks => s.(store := s.store.(dirty := true), failing := false)
    case TerminalError(reason) => s.(store := s.store.(phase := Terminal, err := Some(reason)), terminal := Stopping)
    case TerminalStep => TerminalNext(kit, s)
    case Synced => s.(store := s.store.(synced := true))
    case Tick => TickNext(s)
    case LoopStep => LoopNext(kit, s)
    case LoopExit => s.(loop := s.loop.(at := Exited))
    case Pause => s.(store := s.store.(paused := true))
    case Unpause => s.(store := s.store.(paused := false))
    case MarkDirty => s.(store := s.store.(dirty := true))
    case Stop => s.(store := s.store.(stopped := true))
    case Enter => s.(lastID := s.lastID + 1, page := s.page.(id := s.lastID + 1, ui := Stamping, missed := None))
    case UiStep => UiNext(kit, s)
    case Deliver => DeliverNext(s)
    case Bury => s.(page := s.page.(onTop := false))
    case Reveal => s.(page := s.page.(onTop := true))
  }

  ghost predicate Leads<C, R>(kit: Kit<C, R>, s: State<C, R>, steps: seq<Step<C>>, t: State<C, R>)
    decreases |steps|
  {
    if steps == [] then s == t
    else Enabled(s, steps[0]) && Leads(kit, Do(kit, s, steps[0]), steps[1..], t)
  }

  ghost predicate Reachable<C(!new), R>(kit: Kit<C, R>, s: State<C, R>) {
    exists c, steps :: Leads(kit, Start(c), steps, s)
  }

  // ---- who carries the freshest snapshot ---------------------------------------------

  /** The last message for view id, the one the page will end up with. */
  ghost function LastFor<R>(inbox: seq<Message<R>>, id: nat): Option<Remote<R>> {
    if inbox == [] then None
    else if inbox[|inbox| - 1].id == id then Some(inbox[|inbox| - 1].remote)
    else LastFor(inbox[..|inbox| - 1], id)
  }

  lemma LastForSnoc<R>(inbox: seq<Message<R>>, m: Message<R>, id: nat)
    ensures LastFor(inbox + [m], id) == if m.id == id then Some(m.remote) else LastFor(inbox, id)
  {
    assert (inbox + [m])[..|inbox|] == inbox;
  }

  lemma {:induction false} LastForTail<R>(inbox: seq<Message<R>>, id: nat)
    requires inbox != []
    ensures LastFor(inbox, id) ==
            if LastFor(inbox[1..], id).Some? then LastFor(inbox[1..], id)
            else if inbox[0].id == id then Some(inbox[0].remote) else None
    decreases |inbox|
  {
    if |inbox| > 1 {
      LastForTail(inbox[..|inbox| - 1], id);
      assert inbox[..|inbox| - 1][1..] == inbox[1..][..|inbox| - 2];
    }
  }

  lemma {:induction false} LastForNone<R>(inbox: seq<Message<R>>, id: nat)
    requires forall i :: 0 <= i < |inbox| ==> inbox[i].id < id
    ensures LastFor(inbox, id) == None
  {
    if inbox != [] {
      LastForNone(inbox[..|inbox| - 1], id);
    }
  }

  /** The snapshot that will be applied last: the loop's, then the newest queued one, then
      the one OnEnter is painting, then the one the page last got or missed. */
  ghost function Carrier<C, R>(s: State<C, R>): Reading<R> {
    if s.loop.at.Flush? && s.loop.at.id == s.store.viewID then s.loop.at.reading
    else Queued(s)
  }

  ghost function Queued<C, R>(s: State<C, R>): Reading<R> {
    var last := LastFor(s.inbox, s.store.viewID);
    if last.Some? then Taken(last.value) else Painted(s.page)
  }

  ghost function Painted<R>(page: Page<R>): Reading<R> {
    if page.ui.Painting? then page.ui.reading
    else if page.missed.Some? then Taken(page.missed.value)
    else if page.remote.Some? then Taken(page.remote.value)
    else AtPhase
  }

  /** What was read of the phase and error is still current. */
  ghost predicate PhaseGood<C, R>(s: Store<C>, r: Reading<R>) {
    match r
    case AtPhase => true
    case AtSync(p, e) => p == s.phase && e == s.err
    case AtRows(p, e) => p == Upgrade(s.phase, s.synced) && e == s.err
    case Taken(m) => m.phase == Upgrade(s.phase, s.synced) && m.err == s.err
  }

  ghost predicate RowsGood<C, R>(kit: Kit<C, R>, s: Store<C>, r: Reading<R>) {
    r.Taken? ==> r.remote.rows == kit.project(s.cache)
  }

  /** Something is still on its way that will make the loop flush. */
  ghost predicate PhaseSignal<C, R>(s: State<C, R>) {
    s.handling || s.failing || s.store.dirty || s.loop.at.EdgeDirty? || s.loop.at.LoadId?
    || (s.store.synced && !s.loop.syncedOnce)
  }

  ghost predicate RowsSignal<C, R>(s: State<C, R>) {
    s.owed > 0 || s.handling || s.store.dirty || s.loop.at.LoadId?
  }

  /** The core of the argument: unless a signal is pending, the freshest snapshot is current. */
  ghost predicate Fresh<C, R>(kit: Kit<C, R>, s: State<C, R>) {
    && (PhaseSignal(s) || PhaseGood(s.store, Carrier(s)))
    && (RowsSignal(s) || RowsGood(kit, s.store, Carrier(s)))
  }

  ghost predicate Excused<C, R>(s: State<C, R>) {
    s.store.phase == Terminal || s.page.id == 0 || s.page.ui.Stamping?
  }

  /** View ids: the page's is the newest; nothing older matches it. */
  ghost predicate IdsInv<C, R>(s: State<C, R>) {
    && s.page.id == s.lastID && s.store.viewID <= s.page.id
    && (s.page.ui.Stamping? ==> s.store.viewID < s.page.id)
    && (!s.page.ui.Stamping? ==> s.store.viewID == s.page.id)
    && (s.loop.at.Flush? ==> s.loop.at.id <= s.store.viewID)
    && (s.terminal.TerminalFlush? ==> s.terminal.id <= s.store.viewID)
    && (forall i :: 0 <= i < |s.inbox| ==> s.inbox[i].id <= s.store.viewID)
    && (s.loop.syncedOnce ==> s.store.synced)
    && (!s.page.ui.Free? ==> s.page.missed.None?)
    && (s.page.ui.Free? && s.page.id > 0 ==> s.page.remote.Some?)
    && (!s.terminal.Quiet? ==> s.store.phase == Terminal)
  }

  ghost predicate Inv<C, R>(kit: Kit<C, R>, s: State<C, R>) {
    IdsInv(s) && (Excused(s) || Fresh(kit, s))
  }

  // ---- every step keeps it ---------------------------------------------------------

  /** Between flushes the loop keeps its view of the sync edge, starts a flush only with the
      store's id, and clears dirty only into a flush. */
  lemma TurnKeeps<C, R>(kit: Kit<C, R>, store: Store<C>, loop: Loop<R>)
    requires !loop.at.Flush?
    ensures var (l, dirty) := Turn(kit, store, loop);
            && l.syncedOnce == loop.syncedOnce
            && (l.at.Flush? <==> loop.at.LoadId?)
            && (l.at.Flush? ==> l.at == Flush(store.viewID, AtPhase))
            && (dirty || l.at.LoadId? || l.at.Flush? || (!store.dirty && !loop.at.EdgeDirty? && !loop.at.LoadId?))
  {
  }

  lemma LoopIds<C, R>(kit: Kit<C, R>, s: State<C, R>)
    requires IdsInv(s)
    ensures IdsInv(LoopNext(kit, s))
  {
    if s.loop.at.Flush? {
      if s.loop.at.reading.Taken? {
        InboxSnoc(s.inbox, Message(s.loop.at.id, s.loop.at.reading.remote), s.store.viewID);
      }
    } else {
      TurnKeeps(kit, s.store, s.loop);
    }
  }

  lemma TerminalIds<C, R>(kit: Kit<C, R>, s: State<C, R>)
    requires IdsInv(s)
    ensures IdsInv(TerminalNext(kit, s))
  {
    if s.terminal.TerminalFlush? && s.terminal.reading.Taken? {
      InboxSnoc(s.inbox, Message(s.terminal.id, s.terminal.reading.remote), s.store.viewID);
    }
  }

  lemma InboxSnoc<R>(inbox: seq<Message<R>>, m: Message<R>, bound: nat)
    requires m.id <= bound && forall i :: 0 <= i < |inbox| ==> inbox[i].id <= bound
    ensures forall i :: 0 <= i < |inbox + [m]| ==> (inbox + [m])[i].id <= bound
  {
  }

  lemma UiIds<C, R>(kit: Kit<C, R>, s: State<C, R>)
    requires IdsInv(s)
    ensures IdsInv(UiNext(kit, s))
    ensures s.page.ui.Free? && s.inbox != [] ==> IdsInv(DeliverNext(s))
  {
    if s.page.ui.Free? && s.inbox != [] {
      var t := DeliverNext(s);
      assert forall i :: 0 <= i < |t.inbox| ==> t.inbox[i] == s.inbox[1..][i];
    }
  }

  ghost predicate IsWatch<C>(step: Step<C>) {
    step.Update? || step.HandlerLocks? || step.HandlerMarks? || step.ErrorLocks? || step.ErrorMarks? || step.Synced?
  }

  ghost predicate IsFlag<C>(step: Step<C>) {
    step.Tick? || step.LoopExit? || step.Pause? || step.Unpause? || step.MarkDirty? || step.Stop?
  }

  lemma WatchIds<C, R>(kit: Kit<C, R>, s: State<C, R>, step: Step<C>)
    requires IdsInv(s) && Enabled(s, step) && IsWatch(step)
    ensures IdsInv(Do(kit, s, step))
  {
    var t := Do(kit, s, step);
    assert t.inbox == s.inbox && t.page == s.page && t.loop == s.loop && t.terminal == s.terminal;
  }

  lemma FlagIds<C, R>(kit: Kit<C, R>, s: State<C, R>, step: Step<C>)
    requires IdsInv(s) && Enabled(s, step) && IsFlag(step)
    ensures IdsInv(Do(kit, s, step))
  {
    var t := Do(kit, s, step);
    assert t.inbox == s.inbox && t.page == s.page && t.terminal == s.terminal;
  }

  lemma IdsStep<C, R>(kit: Kit<C, R>, s: State<C, R>, step: Step<C>)
    requires IdsInv(s) && Enabled(s, step)
    ensures IdsInv(Do(kit, s, step))
  {
    if IsWatch(step) {
      WatchIds(kit, s, step);
    } else if IsFlag(step) {
      FlagIds(kit, s, step);
    } else if step.LoopStep? {
      LoopIds(kit, s);
    } else if step.TerminalStep? {
      TerminalIds(kit, s);
    } else if step.UiStep? || step.Deliver? {
      UiIds(kit, s);
    } else {
      PageIds(kit, s, step);
    }
  }

  lemma PageIds<C, R>(kit: Kit<C, R>, s: State<C, R>, step: Step<C>)
    requires IdsInv(s) && Enabled(s, step)
    requires step.TerminalError? || step.Enter? || step.Bury? || step.Reveal?
    ensures IdsInv(Do(kit, s, step))
  {
  }

  /** Handlers and errors change the store only behind a signal. */
  lemma WatchStep<C, R>(kit: Kit<C, R>, s: State<C, R>, step: Step<C>)
    requires Inv(kit, s) && Enabled(s, step) && IsWatch(step)
    ensures Excused(Do(kit, s, step)) || Fresh(kit, Do(kit, s, step))
  {
    var t := Do(kit, s, step);
    assert Carrier(t) == Carrier(s);
  }

  lemma FlagStep<C, R>(kit: Kit<C, R>, s: State<C, R>, step: Step<C>)
    requires Inv(kit, s) && Enabled(s, step) && IsFlag(step)
    ensures Excused(Do(kit, s, step)) || Fresh(kit, Do(kit, s, step))
  {
    var t := Do(kit, s, step);
    assert Carrier(t) == Carrier(s);
  }

  lemma ReadKeepsGood<C, R>(kit: Kit<C, R>, s: Store<C>, r: Reading<R>)
    ensures PhaseGood(s, r) ==> PhaseGood(s, Read(kit, s, r))
    ensures RowsGood(kit, s, r) ==> RowsGood(kit, s, Read(kit, s, r))
  {
  }

  lemma FlushFresh<C, R>(kit: Kit<C, R>, s: State<C, R>)
    requires Inv(kit, s) && s.loop.at.Flush?
    ensures Excused(LoopNext(kit, s)) || Fresh(kit, LoopNext(kit, s))
  {
    var t := LoopNext(kit, s);
    var id, r := s.loop.at.id, s.loop.at.reading;
    if r.Taken? {
      LastForSnoc(s.inbox, Message(id, r.remote), s.store.viewID);
      assert Carrier(t) == Carrier(s);
    } else {
      ReadKeepsGood(kit, s.store, r);
      assert t.inbox == s.inbox;
      assert Carrier(t) == if id == s.store.viewID then Read(kit, s.store, r) else Carrier(s);
    }
  }

  /** Between flushes the loop only moves the dirty flag, and clears it only into a flush. */
  lemma BetweenFlushes<C, R>(kit: Kit<C, R>, s: State<C, R>)
    requires Inv(kit, s) && !s.loop.at.Flush?
    ensures Excused(LoopNext(kit, s)) || Fresh(kit, LoopNext(kit, s))
  {
    var t := LoopNext(kit, s);
    TurnKeeps(kit, s.store, s.loop);
    if s.loop.at.LoadId? {
      assert Carrier(t) == AtPhase;
    } else {
      assert Carrier(t) == Carrier(s);
    }
  }

  lemma UiStepFresh<C, R>(kit: Kit<C, R>, s: State<C, R>)
    requires Inv(kit, s)
    ensures Excused(UiNext(kit, s)) || Fresh(kit, UiNext(kit, s))
  {
    var t := UiNext(kit, s);
    if s.page.ui.Stamping? {
      LastForNone(s.inbox, t.store.viewID);
      assert Carrier(t) == AtPhase;
    } else if s.page.ui.Painting? {
      ReadKeepsGood(kit, s.store, s.page.ui.reading);
    }
  }

  lemma DeliverFresh<C, R>(kit: Kit<C, R>, s: State<C, R>)
    requires Inv(kit, s) && s.page.ui.Free? && s.inbox != []
    ensures Excused(DeliverNext(s)) || Fresh(kit, DeliverNext(s))
  {
    var t := DeliverNext(s);
    LastForTail(s.inbox, s.store.viewID);
  }

  lemma StepInv<C, R>(kit: Kit<C, R>, s: State<C, R>, step: Step<C>)
    requires Inv(kit, s) && Enabled(s, step)
    ensures Inv(kit, Do(kit, s, step))
  {
    IdsStep(kit, s, step);
    if IsWatch(step) {
      WatchStep(kit, s, step);
    } else if IsFlag(step) {
      FlagStep(kit, s, step);
    } else if step.LoopStep? {
      if s.loop.at.Flush? {
        FlushFresh(kit, s);
      } else {
        BetweenFlushes(kit, s);
      }
    } else if step.TerminalStep? {
      TerminalExcused(kit, s);
    } else if step.UiStep? {
      UiStepFresh(kit, s);
    } else if step.Deliver? {
      DeliverFresh(kit, s);
    } else {
      PageFresh(kit, s, step);
    }
  }

  lemma TerminalExcused<C, R>(kit: Kit<C, R>, s: State<C, R>)
    requires Inv(kit, s)
    ensures Excused(TerminalNext(kit, s)) || Fresh(kit, TerminalNext(kit, s))
  {
  }

  lemma PageFresh<C, R>(kit: Kit<C, R>, s: State<C, R>, step: Step<C>)
    requires Inv(kit, s) && Enabled(s, step)
    requires step.TerminalError? || step.Enter? || step.Bury? || step.Reveal?
    ensures Excused(Do(kit, s, step)) || Fresh(kit, Do(kit, s, step))
  {
    var t := Do(kit, s, step);
    if step.Bury? || step.Reveal? {
      assert Carrier(t) == Carrier(s);
    }
  }

  lemma {:induction false} RunInv<C, R>(kit: Kit<C, R>, s: State<C, R>, steps: seq<Step<C>>, t: State<C, R>)
    requires Inv(kit, s) && Leads(kit, s, steps, t)
    ensures Inv(kit, t)
    decreases |steps|
  {
    if steps != [] {
      StepInv(kit, s, steps[0]);
      RunInv(kit, Do(kit, s, steps[0]), steps[1..], t);
    }
  }

  // ---- no lost update ----------------------------------------------------------------

  /** What the page should show: the projection of the cache and the store's phase. */
  ghost function Current<C, R>(kit: Kit<C, R>, s: Store<C>): Remote<R> {
    Remote(Upgrade(s.phase, s.synced), kit.project(s.cache), s.err)
  }

  /** No handler or half-done error is pending, dirty is clear, the sync edge has been seen,
      and no flush, message or paint is in flight. */
  ghost predicate Settled<C, R>(s: State<C, R>) {
    && s.owed == 0 && !s.handling && !s.failing && !s.store.dirty
    && s.loop.syncedOnce == s.store.synced
    && !s.loop.at.EdgeDirty? && !s.loop.at.LoadId? && !s.loop.at.Flush?
    && s.inbox == [] && s.page.ui.Free?
  }

  /** In every interleaving before a terminal error, a settled pipeline has delivered the
      current cache and phase: the entered page shows them if and only if the last snapshot
      sent to it did not go to a drill-in above it, or told it nothing new. */
  lemma NoLostUpdate<C(!new), R>(kit: Kit<C, R>, s: State<C, R>)
    requires Reachable(kit, s) && s.store.phase != Terminal && s.page.id > 0 && Settled(s)
    ensures s.page.missed.None? ==> s.page.remote == Some(Current(kit, s.store))
    ensures s.page.missed.Some? ==> s.page.missed == Some(Current(kit, s.store))
    ensures s.page.remote == Some(Current(kit, s.store)) <==>
            s.page.missed.None? || s.page.missed == s.page.remote
  {
    var c, steps :| Leads(kit, Start(c), steps, s);
    RunInv(kit, Start(c), steps, s);
    assert LastFor(s.inbox, s.store.viewID) == None;
    assert Carrier(s) == Painted(s.page);
  }

  // ---- what holds through a terminal error too -----------------------------------------

  /** Terminal is never left. */
  lemma {:induction false} TerminalIsSticky<C, R>(kit: Kit<C, R>, s: State<C, R>, steps: seq<Step<C>>, t: State<C, R>)
    requires s.store.phase == Terminal && Leads(kit, s, steps, t)
    ensures t.store.phase == Terminal
    decreases |steps|
  {
    if steps != [] {
      TerminalStays(kit, s, steps[0]);
      TerminalIsSticky(kit, Do(kit, s, steps[0]), steps[1..], t);
    }
  }

  /** Neither the loop, nor the terminal flush, nor the UI touches the phase. */
  lemma LoopsKeepPhase<C, R>(kit: Kit<C, R>, s: State<C, R>)
    ensures LoopNext(kit, s).store.phase == s.store.phase
    ensures TerminalNext(kit, s).store.phase == s.store.phase
    ensures UiNext(kit, s).store.phase == s.store.phase
  {
  }

  lemma TerminalStays<C, R>(kit: Kit<C, R>, s: State<C, R>, step: Step<C>)
    requires s.store.phase == Terminal && Enabled(s, step)
    ensures Do(kit, s, step).store.phase == Terminal
  {
    if step.LoopStep? || step.TerminalStep? || step.UiStep? {
      LoopsKeepPhase(kit, s);
    }
  }

  /** An error accompanies exactly the stale and terminal phases. */
  predicate Paired(p: Phase, e: Option<string>) { e.Some? <==> p == Stale || p == Terminal }

  ghost predicate PairedReading<R>(r: Reading<R>) {
    match r
    case AtPhase => true
    case AtSync(p, e) => Paired(p, e)
    case AtRows(p, e) => Paired(p, e)
    case Taken(m) => Paired(m.phase, m.err)
  }

  ghost predicate ErrorsInv<C, R>(s: State<C, R>) {
    && Paired(s.store.phase, s.store.err)
    && (s.loop.at.Flush? ==> PairedReading(s.loop.at.reading))
    && (s.terminal.TerminalFlush? ==> PairedReading(s.terminal.reading))
    && (s.page.ui.Painting? ==> PairedReading(s.page.ui.reading))
    && (s.page.remote.Some? ==> Paired(s.page.remote.value.phase, s.page.remote.value.err))
    && PairedInbox(s.inbox)
  }

  ghost predicate PairedInbox<R>(inbox: seq<Message<R>>) {
    forall i :: 0 <= i < |inbox| ==> Paired(inbox[i].remote.phase, inbox[i].remote.err)
  }

  lemma ReadPairs<C, R>(kit: Kit<C, R>, s: Store<C>, r: Reading<R>)
    requires Paired(s.phase, s.err) && PairedReading(r)
    ensures PairedReading(Read(kit, s, r))
  {
  }

  lemma LoopErrors<C, R>(kit: Kit<C, R>, s: State<C, R>)
    requires ErrorsInv(s)
    ensures ErrorsInv(LoopNext(kit, s))
  {
    if s.loop.at.Flush? {
      ReadPairs(kit, s.store, s.loop.at.reading);
    } else {
      TurnKeeps(kit, s.store, s.loop);
    }
  }

  lemma TerminalErrors<C, R>(kit: Kit<C, R>, s: State<C, R>)
    requires ErrorsInv(s)
    ensures ErrorsInv(TerminalNext(kit, s))
  {
    if s.terminal.TerminalFlush? {
      ReadPairs(kit, s.store, s.terminal.reading);
    }
  }

  lemma UiErrors<C, R>(kit: Kit<C, R>, s: State<C, R>)
    requires ErrorsInv(s)
    ensures ErrorsInv(UiNext(kit, s))
  {
    if s.page.ui.Painting? {
      ReadPairs(kit, s.store, s.page.ui.reading);
    }
  }

  lemma DeliverErrors<C, R>(s: State<C, R>)
    requires ErrorsInv(s) && s.inbox != []
    ensures ErrorsInv(DeliverNext(s))
  {
  }

  lemma ErrorsStep<C, R>(kit: Kit<C, R>, s: State<C, R>, step: Step<C>)
    requires ErrorsInv(s) && Enabled(s, step)
    ensures ErrorsInv(Do(kit, s, step))
  {
    if step.LoopStep? {
      LoopErrors(kit, s);
    } else if step.TerminalStep? {
      TerminalErrors(kit, s);
    } else if step.UiStep? {
      UiErrors(kit, s);
    } else if step.Deliver? {
      DeliverErrors(s);
    }
  }

  lemma {:induction false} RunErrors<C, R>(kit: Kit<C, R>, s: State<C, R>, steps: seq<Step<C>>, t: State<C, R>)
    requires ErrorsInv(s) && Leads(kit, s, steps, t)
    ensures ErrorsInv(t)
    decreases |steps|
  {
    if steps != [] {
      ErrorsStep(kit, s, steps[0]);
      RunErrors(kit, Do(kit, s, steps[0]), steps[1..], t);
    }
  }

  /** In every run, every snapshot sent and every snapshot shown carries an error exactly when
      its phase is stale or terminal. */
  lemma SnapshotErrors<C(!new), R>(kit: Kit<C, R>, s: State<C, R>)
    requires Reachable(kit, s)
    ensures Paired(s.store.phase, s.store.err)
    ensures forall m :: m in s.inbox ==> Paired(m.remote.phase, m.remote.err)
    ensures s.page.remote.Some? ==> Paired(s.page.remote.value.phase, s.page.remote.value.err)
  {
    var c, steps :| Leads(kit, Start(c), steps, s);
    RunErrors(kit, Start(c), steps, s);
  }

  // ---- what the page says of the watch ------------------------------------------------

  /** What a watch has come to: the phase it is in and the error that put it there. */
  datatype Verdict = Verdict(phase: Phase, err: Option<string>)

  /** An event makes it ready, a transient error stale with its reason, and a terminal error is
      the end: nothing but another terminal error changes it then. */
  ghost function VerdictAfter<C>(v: Verdict, step: Step<C>): Verdict {
    if step.TerminalError? then Verdict(Terminal, Some(step.reason))
    else if v.phase == Terminal then v
    else if step.HandlerLocks? then Verdict(Ready, None)
    else if step.ErrorLocks? then Verdict(Stale, Some(step.reason))
    else v
  }

  ghost function VerdictOf<C>(v: Verdict, steps: seq<Step<C>>): Verdict
    decreases |steps|
  {
    if steps == [] then v else VerdictOf(VerdictAfter(v, steps[0]), steps[1..])
  }

  lemma LoopsKeepError<C, R>(kit: Kit<C, R>, s: State<C, R>)
    ensures LoopNext(kit, s).store.err == s.store.err
    ensures TerminalNext(kit, s).store.err == s.store.err
    ensures UiNext(kit, s).store.err == s.store.err
  {
  }

  lemma StepVerdict<C, R>(kit: Kit<C, R>, s: State<C, R>, step: Step<C>)
    requires Enabled(s, step)
    ensures var t := Do(kit, s, step).store;
            Verdict(t.phase, t.err) == VerdictAfter(Verdict(s.store.phase, s.store.err), step)
  {
    if step.LoopStep? || step.TerminalStep? || step.UiStep? {
      LoopsKeepPhase(kit, s);
      LoopsKeepError(kit, s);
    }
  }

  /** In every run the store's phase and error are what the events and errors so far amount to. */
  lemma {:induction false} StoreHoldsVerdict<C, R>(kit: Kit<C, R>, s: State<C, R>, steps: seq<Step<C>>, t: State<C, R>)
    requires Leads(kit, s, steps, t)
    ensures Verdict(t.store.phase, t.store.err) == VerdictOf(Verdict(s.store.phase, s.store.err), steps)
    decreases |steps|
  {
    if steps != [] {
      StepVerdict(kit, s, steps[0]);
      StoreHoldsVerdict(kit, Do(kit, s, steps[0]), steps[1..], t);
    }
  }

  /** End to end: a settled page that missed nothing shows the cache and that verdict, an initial
      load counting as ready once the cache has synced. */
  lemma PageShowsVerdict<C(!new), R>(kit: Kit<C, R>, cache: C, steps: seq<Step<C>>, s: State<C, R>)
    requires Leads(kit, Start(cache), steps, s) && Settled(s) && s.page.id > 0 && s.page.missed.None?
    requires VerdictOf(Verdict(Loading, None), steps).phase != Terminal
    ensures var v := VerdictOf(Verdict(Loading, None), steps);
            s.page.remote == Some(Remote(if v.phase == Loading && s.store.synced then Ready else v.phase,
                                         kit.project(s.store.cache), v.err))
  {
    StoreHoldsVerdict(kit, Start<C, R>(cache), steps, s);
    NoLostUpdate(kit, s);
  }

  /** No event or error of the watch. */
  predicate Uneventful<C>(step: Step<C>) { !step.HandlerLocks? && !step.ErrorLocks? && !step.TerminalError? }

  lemma {:induction false} VerdictStands<C>(v: Verdict, steps: seq<Step<C>>)
    requires forall i :: 0 <= i < |steps| ==> Uneventful(steps[i])
    ensures VerdictOf(v, steps) == v
  {
    if steps != [] {
      assert Uneventful(steps[0]);
      VerdictStands(v, steps[1..]);
    }
  }

  lemma {:induction false} VerdictAppend<C>(v: Verdict, a: seq<Step<C>>, b: seq<Step<C>>)
    ensures VerdictOf(v, a + b) == VerdictOf(VerdictOf(v, a), b)
    decreases |a|
  {
    if a == [] {
      assert a + b == b;
    } else {
      Uncons(a, b);
      VerdictAppend(VerdictAfter(v, a[0]), a[1..], b);
    }
  }

  /** In particular the last transient error is on the page, with its reason, as long as no event
      came after it; and after an event there is none. */
  lemma LastWordIsShown<C(!new), R>(kit: Kit<C, R>, cache: C, a: seq<Step<C>>, last: Step<C>, b: seq<Step<C>>, s: State<C, R>)
    requires Leads(kit, Start(cache), a + [last] + b, s) && Settled(s) && s.page.id > 0 && s.page.missed.None?
    requires VerdictOf(Verdict(Loading, None), a).phase != Terminal && (last.ErrorLocks? || last.HandlerLocks?)
    requires forall i :: 0 <= i < |b| ==> Uneventful(b[i])
    ensures s.page.remote.Some?
    ensures last.ErrorLocks? ==> s.page.remote.value.phase == Stale && s.page.remote.value.err == Some(last.reason)
    ensures last.HandlerLocks? ==> s.page.remote.value.phase == Ready && s.page.remote.value.err == None
  {
    var v := VerdictOf(Verdict(Loading, None), a);
    VerdictAppend(Verdict(Loading, None), a + [last], b);
    VerdictAppend(Verdict(Loading, None), a, [last]);
    assert [last][1..] == [];
    VerdictStands(VerdictAfter(v, last), b);
    PageShowsVerdict(kit, cache, a + [last] + b, s);
  }

  // ---- a paused store is silent --------------------------------------------------------

  ghost predicate Silent<C, R>(s: State<C, R>) {
    && s.store.paused && s.terminal.Quiet?
    && (s.loop.at.Idle? || s.loop.at.EdgeDirty? || s.loop.at.PauseCheck? || s.loop.at.Exited?)
  }

  /** What is queued only gets shorter. */
  ghost predicate Drained<R>(was: seq<Message<R>>, now: seq<Message<R>>) {
    |now| <= |was| && now == was[|was| - |now|..]
  }

  lemma SilentLoop<C, R>(kit: Kit<C, R>, s: State<C, R>)
    requires Silent(s)
    ensures Silent(LoopNext(kit, s)) && LoopNext(kit, s).inbox == s.inbox
    ensures s.loop.at.Idle? ==> Silent(TickNext(s)) && TickNext(s).inbox == s.inbox
  {
  }

  lemma SilentOthers<C, R>(kit: Kit<C, R>, s: State<C, R>)
    requires Silent(s)
    ensures Silent(UiNext(kit, s)) && UiNext(kit, s).inbox == s.inbox
    ensures TerminalNext(kit, s) == s
    ensures s.inbox != [] ==> Silent(DeliverNext(s)) && DeliverNext(s).inbox == s.inbox[1..]
  {
  }

  lemma SilentStep<C, R>(kit: Kit<C, R>, s: State<C, R>, step: Step<C>)
    requires Silent(s) && Enabled(s, step) && !step.Unpause? && !step.TerminalError?
    ensures Silent(Do(kit, s, step))
    ensures Do(kit, s, step).inbox == if step.Deliver? then s.inbox[1..] else s.inbox
  {
    if step.LoopStep? || step.Tick? {
      SilentLoop(kit, s);
    } else if step.UiStep? || step.TerminalStep? || step.Deliver? {
      SilentOthers(kit, s);
    }
  }

  lemma DrainedMore<R>(a: seq<Message<R>>, b: seq<Message<R>>, c: seq<Message<R>>)
    requires Drained(b, c) && (b == a || (a != [] && b == a[1..]))
    ensures Drained(a, c)
  {
    if b != a {
      assert a[1..][|b| - |c|..] == a[|a| - |c|..];
    }
  }

  /** Pausing, from wherever the loop waits, is the start of such a silence. */
  lemma PauseSilences<C, R>(kit: Kit<C, R>, s: State<C, R>)
    requires s.terminal.Quiet? && (s.loop.at.Idle? || s.loop.at.EdgeDirty? || s.loop.at.PauseCheck?)
    ensures Silent(Do(kit, s, Pause)) && Do(kit, s, Pause).inbox == s.inbox
  {
  }

  /** Stopping lets the loop leave. */
  lemma StopEndsLoop<C, R>(kit: Kit<C, R>, s: State<C, R>)
    requires s.loop.at.Idle?
    ensures Enabled(Do(kit, s, Stop), LoopExit) && Do(kit, Do(kit, s, Stop), LoopExit).loop.at.Exited?
  {
  }

  /** While a store is paused, and no terminal error comes, it sends nothing, whatever happens. */
  lemma {:induction false} PausedSendsNothing<C, R>(kit: Kit<C, R>, s: State<C, R>, steps: seq<Step<C>>, t: State<C, R>)
    requires Silent(s) && Leads(kit, s, steps, t)
    requires forall i :: 0 <= i < |steps| ==> !steps[i].Unpause? && !steps[i].TerminalError?
    ensures Silent(t) && Drained(s.inbox, t.inbox)
    decreases |steps|
  {
    if steps != [] {
      var u := Do(kit, s, steps[0]);
      SilentStep(kit, s, steps[0]);
      assert forall i :: 0 <= i < |steps[1..]| ==> steps[1..][i] == steps[i + 1];
      PausedSendsNothing(kit, u, steps[1..], t);
      DrainedMore(s.inbox, u.inbox, t.inbox);
    }
  }
}
