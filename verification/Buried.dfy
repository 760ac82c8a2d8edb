/** The exact gap in "no lost update": a page that is buried under a drill-in when a snapshot
    is delivered (internal/app/app.go routes messages to the top page only, and a resource page
    is not re-entered on pop). */
module Buried {
  import opened Text
  import opened Pipeline

  /** The steps the loop and the UI take on their own, with no watch event, error or key press. */
  predicate Unprompted<C>(step: Step<C>) {
    step.Tick? || step.LoopStep? || step.LoopExit? || step.Deliver? || step.UiStep? || step.Pause? || step.Unpause?
  }

  ghost predicate AllUnprompted<C>(steps: seq<Step<C>>) {
    forall i :: 0 <= i < |steps| ==> Unprompted(steps[i])
  }

  /** Some run leads from s to t; when alone, one of unprompted steps only. */
  ghost predicate Reaches<C(!new), R>(kit: Kit<C, R>, alone: bool, s: State<C, R>, t: State<C, R>) {
    exists steps :: Leads(kit, s, steps, t) && (alone ==> AllUnprompted(steps))
  }

  lemma {:induction false} LeadsSnoc<C, R>(kit: Kit<C, R>, s: State<C, R>, steps: seq<Step<C>>, t: State<C, R>, step: Step<C>)
    requires Leads(kit, s, steps, t) && Enabled(t, step)
    ensures Leads(kit, s, steps + [step], Do(kit, t, step))
    decreases |steps|
  {
    if steps == [] {
      assert [step][1..] == [];
    } else {
      LeadsSnoc(kit, Do(kit, s, steps[0]), steps[1..], t, step);
      Uncons(steps, [step]);
    }
  }

  lemma Stay<C(!new), R>(kit: Kit<C, R>, s: State<C, R>)
    ensures Reaches(kit, true, s, s) && Reaches(kit, false, s, s)
  {
    assert Leads(kit, s, [], s);
  }

  lemma Go<C(!new), R>(kit: Kit<C, R>, alone: bool, s: State<C, R>, t: State<C, R>, step: Step<C>, u: State<C, R>)
    requires Reaches(kit, alone, s, t) && Enabled(t, step) && Do(kit, t, step) == u
    requires alone ==> Unprompted(step)
    ensures Reaches(kit, alone, s, u)
  {
    var steps :| Leads(kit, s, steps, t) && (alone ==> AllUnprompted(steps));
    LeadsSnoc(kit, s, steps, t, step);
  }

  /** The loop waiting for its next tick, unpaused, with the sync edge behind it. */
  ghost predicate Waiting<C, R>(s: State<C, R>) {
    s.loop.at.Idle? && !s.store.paused && s.loop.syncedOnce == s.store.synced
  }

  ghost predicate Late<C, R>(kit: Kit<C, R>, s: State<C, R>) {
    s.loop.sinceFlush + INTERVAL >= HEARTBEAT && kit.count(s.store.cache) > 0
  }

  /** One tick brings the loop to its dirty test; a late heartbeat sets the flag on the way. */
  ghost function AtSwap<C, R>(kit: Kit<C, R>, s: State<C, R>): State<C, R> {
    s.(store := s.store.(dirty := s.store.dirty || Late(kit, s)),
       loop := Loop(Swap, s.loop.syncedOnce, s.loop.sinceFlush + INTERVAL))
  }

  lemma TickToSwap<C(!new), R>(kit: Kit<C, R>, alone: bool, start: State<C, R>, s: State<C, R>)
    requires Reaches(kit, alone, start, s) && Waiting(s)
    ensures Reaches(kit, alone, start, AtSwap(kit, s))
  {
    var a := s.(loop := s.loop.(at := PauseCheck));
    Go(kit, alone, start, s, Tick, a);
    var b := s.(loop := s.loop.(at := Heart));
    Go(kit, alone, start, a, LoopStep, b);
    var since := s.loop.sinceFlush + INTERVAL;
    var c := s.(loop := Loop(if Late(kit, s) then HeartDirty else Swap, s.loop.syncedOnce, since));
    Go(kit, alone, start, b, LoopStep, c);
    if Late(kit, s) {
      Go(kit, alone, start, c, LoopStep, AtSwap(kit, s));
    } else {
      assert c == AtSwap(kit, s);
    }
  }

  /** A loop at its dirty test with the flag set sends the current snapshot. */
  ghost function Flushed<C, R>(kit: Kit<C, R>, s: State<C, R>): State<C, R> {
    s.(store := s.store.(dirty := false), loop := Loop(Idle, s.loop.syncedOnce, 0),
       inbox := s.inbox + [Message(s.store.viewID, Current(kit, s.store))])
  }

  lemma SwapToSend<C(!new), R>(kit: Kit<C, R>, alone: bool, start: State<C, R>, s: State<C, R>)
    requires Reaches(kit, alone, start, s) && s.loop.at.Swap? && s.store.dirty
    ensures Reaches(kit, alone, start, Flushed(kit, s))
  {
    var clean := s.(store := s.store.(dirty := false));
    var a := clean.(loop := s.loop.(at := LoadId));
    Go(kit, alone, start, s, LoopStep, a);
    var b := clean.(loop := s.loop.(at := Flush(s.store.viewID, AtPhase)));
    Go(kit, alone, start, a, LoopStep, b);
    FlushReads(kit, alone, start, b);
  }

  lemma FlushReads<C(!new), R>(kit: Kit<C, R>, alone: bool, start: State<C, R>, s: State<C, R>)
    requires Reaches(kit, alone, start, s) && s.loop.at == Flush(s.store.viewID, AtPhase) && !s.store.dirty
    ensures Reaches(kit, alone, start, Flushed(kit, s))
  {
    var id, store := s.store.viewID, s.store;
    var a := s.(loop := s.loop.(at := Flush(id, AtSync(store.phase, store.err))));
    Go(kit, alone, start, s, LoopStep, a);
    var b := s.(loop := s.loop.(at := Flush(id, AtRows(Upgrade(store.phase, store.synced), store.err))));
    Go(kit, alone, start, a, LoopStep, b);
    var c := s.(loop := s.loop.(at := Flush(id, Taken(Current(kit, store)))));
    Go(kit, alone, start, b, LoopStep, c);
    Go(kit, alone, start, c, LoopStep, Flushed(kit, s));
  }

  /** Resuming flushes: a paused store that is resumed and marked dirty sends the current snapshot
      with its next tick. */
  lemma ResumeSends<C(!new), R>(kit: Kit<C, R>, s: State<C, R>)
    requires s.loop.at.Idle? && s.loop.syncedOnce == s.store.synced
    ensures exists t :: && Reaches(kit, false, s, t) && !t.store.paused && !t.store.dirty
                        && t.inbox == s.inbox + [Message(s.store.viewID, Current(kit, s.store))]
  {
    Stay(kit, s);
    var a := s.(store := s.store.(paused := false));
    Go(kit, false, s, s, Unpause, a);
    var b := s.(store := s.store.(paused := false, dirty := true));
    Go(kit, false, s, a, MarkDirty, b);
    TickToSwap(kit, false, s, b);
    SwapToSend(kit, false, s, AtSwap(kit, b));
    var t := Flushed(kit, AtSwap(kit, b));
    assert Reaches(kit, false, s, t) && Current(kit, AtSwap(kit, b).store) == Current(kit, s.store);
  }

  /** The first sync is an edge: the next tick sends, though no object changed. */
  lemma SyncSends<C(!new), R>(kit: Kit<C, R>, s: State<C, R>)
    requires s.loop.at.Idle? && !s.loop.syncedOnce && !s.store.paused
    ensures exists t :: && Reaches(kit, false, s, t) && t.store.synced && t.loop.syncedOnce
                        && t.inbox == s.inbox + [Message(s.store.viewID, Current(kit, s.store.(synced := true)))]
  {
    Stay(kit, s);
    var store := s.store.(synced := true);
    var a := s.(store := store);
    Go(kit, false, s, s, Synced, a);
    var since := s.loop.sinceFlush;
    var b := s.(store := store, loop := Loop(EdgeDirty, true, since));
    Go(kit, false, s, a, Tick, b);
    var c := s.(store := store.(dirty := true), loop := Loop(PauseCheck, true, since));
    Go(kit, false, s, b, LoopStep, c);
    CheckToSwap(kit, s, c);
    var f := c.(loop := Loop(Swap, true, since + INTERVAL));
    SwapToSend(kit, false, s, f);
    var t := Flushed(kit, f);
    assert Reaches(kit, false, s, t) && Current(kit, f.store) == Current(kit, store);
  }

  lemma CheckToSwap<C(!new), R>(kit: Kit<C, R>, s: State<C, R>, c: State<C, R>)
    requires Reaches(kit, false, s, c) && c.loop.at.PauseCheck? && !c.store.paused && c.store.dirty
    ensures Reaches(kit, false, s, c.(loop := Loop(Swap, c.loop.syncedOnce, c.loop.sinceFlush + INTERVAL)))
  {
    var once, since := c.loop.syncedOnce, c.loop.sinceFlush + INTERVAL;
    var d := c.(loop := c.loop.(at := Heart));
    Go(kit, false, s, c, LoopStep, d);
    var late := since >= HEARTBEAT && kit.count(c.store.cache) > 0;
    var e := c.(loop := Loop(if late then HeartDirty else Swap, once, since));
    Go(kit, false, s, d, LoopStep, e);
    if late {
      Go(kit, false, s, e, LoopStep, c.(loop := Loop(Swap, once, since)));
    }
  }

  /** A terminal error is sent at once, paused or not, and the store is stopped. */
  lemma TerminalErrorIsSent<C(!new), R>(kit: Kit<C, R>, s: State<C, R>, reason: string)
    requires !s.failing && s.terminal.Quiet?
    ensures exists t :: && Reaches(kit, false, s, t) && t.store == s.store.(phase := Terminal, err := Some(reason), stopped := true)
                        && t.inbox == s.inbox + [Message(s.store.viewID, Remote(Terminal, kit.project(s.store.cache), Some(reason)))]
  {
    Stay(kit, s);
    var a := s.(store := s.store.(phase := Terminal, err := Some(reason)), terminal := Stopping);
    Go(kit, false, s, s, TerminalError(reason), a);
    var store := a.store.(stopped := true);
    var b := s.(store := store, terminal := TerminalLoadId);
    Go(kit, false, s, a, TerminalStep, b);
    var c := s.(store := store, terminal := TerminalFlush(store.viewID, AtPhase));
    Go(kit, false, s, b, TerminalStep, c);
    TerminalReads(kit, s, c, reason);
  }

  lemma TerminalReads<C(!new), R>(kit: Kit<C, R>, s: State<C, R>, c: State<C, R>, reason: string)
    requires s.terminal.Quiet? && Reaches(kit, false, s, c)
    requires var store := s.store.(phase := Terminal, err := Some(reason), stopped := true);
             c == s.(store := store, terminal := TerminalFlush(store.viewID, AtPhase))
    ensures exists t :: && Reaches(kit, false, s, t) && t.store == c.store
                        && t.inbox == s.inbox + [Message(s.store.viewID, Remote(Terminal, kit.project(s.store.cache), Some(reason)))]
  {
    var id, e := c.store.viewID, Some(reason);
    var remote := Remote(Terminal, kit.project(s.store.cache), e);
    var d := c.(terminal := TerminalFlush(id, AtSync(Terminal, e)));
    Go(kit, false, s, c, TerminalStep, d);
    var f := c.(terminal := TerminalFlush(id, AtRows(Terminal, e)));
    Go(kit, false, s, d, TerminalStep, f);
    var g := c.(terminal := TerminalFlush(id, Taken(remote)));
    Go(kit, false, s, f, TerminalStep, g);
    var t := c.(terminal := Quiet, inbox := s.inbox + [Message(id, remote)]);
    Go(kit, false, s, g, TerminalStep, t);
  }

  /** A page that can be buried: entered, settled and showing, with the loop waiting. */
  ghost predicate Showing<C, R>(s: State<C, R>) {
    && Settled(s) && Waiting(s) && s.page.onTop && s.page.id > 0 && s.page.id == s.store.viewID
    && s.store.phase != Terminal
  }

  /** What a store that has just seen an event with this cache would show. */
  ghost function Shown<C, R>(kit: Kit<C, R>, cache: C): Remote<R> { Remote(Ready, kit.project(cache), None) }

  /** From every such state of every run, whatever the cache becomes while the page is buried,
      the run can go on until the pipeline is settled and the page back on top with the rows
      it had before: it missed the current snapshot, and is stale unless that said nothing new. */
  lemma BuriedPageGoesStale<C(!new), R>(kit: Kit<C, R>, start: State<C, R>, s: State<C, R>, cache: C)
    requires Reaches(kit, false, start, s) && Showing(s)
    ensures exists t :: && Reaches(kit, false, start, t) && Showing(t) && t.store.cache == cache
                        && t.page.remote == s.page.remote && t.page.missed == Some(Current(kit, t.store))
                        && (t.page.remote == Some(Current(kit, t.store)) <==> s.page.remote == Some(Shown(kit, cache)))
  {
    var ready := s.store.(cache := cache, phase := Ready, err := None);
    var a := s.(page := s.page.(onTop := false));
    Go(kit, false, start, s, Bury, a);
    var b := a.(store := s.store.(cache := cache), owed := 1);
    Go(kit, false, start, a, Update(cache), b);
    var c := a.(store := ready, handling := true);
    Go(kit, false, start, b, HandlerLocks, c);
    var d := a.(store := ready.(dirty := true));
    Go(kit, false, start, c, HandlerMarks, d);
    TickToSwap(kit, false, start, d);
    SwapToSend(kit, false, start, AtSwap(kit, d));
    MissAndReveal(kit, start, s, cache, Flushed(kit, AtSwap(kit, d)));
  }

  lemma MissAndReveal<C(!new), R>(kit: Kit<C, R>, start: State<C, R>, s: State<C, R>, cache: C, e: State<C, R>)
    requires Reaches(kit, false, start, e) && Showing(s)
    requires var d := s.(page := s.page.(onTop := false),
                         store := s.store.(cache := cache, phase := Ready, err := None, dirty := true));
             e == Flushed(kit, AtSwap(kit, d))
    ensures exists t :: && Reaches(kit, false, start, t) && Showing(t) && t.store.cache == cache
                        && t.page.remote == s.page.remote && t.page.missed == Some(Current(kit, t.store))
                        && (t.page.remote == Some(Current(kit, t.store)) <==> s.page.remote == Some(Shown(kit, cache)))
  {
    var now := Shown(kit, cache);
    assert e.inbox == [Message(s.store.viewID, now)] && e.inbox[1..] == [];
    var f := e.(inbox := [], page := e.page.(missed := Some(now)));
    Go(kit, false, start, e, Deliver, f);
    var t := f.(page := f.page.(onTop := true));
    Go(kit, false, start, f, Reveal, t);
    assert Showing(t) && Current(kit, t.store) == now;
  }

  // ---- such a page exists, and so does its stale successor ----------------------------

  /** Entering a page leads from the start to a state in which it shows the initial cache. */
  lemma EnteredPageShows<C(!new), R>(kit: Kit<C, R>, cache: C) returns (s: State<C, R>)
    ensures Reaches(kit, false, Start(cache), s) && Showing(s) && s.store.cache == cache
    ensures s.page.remote == Some(Remote(Loading, kit.project(cache), None))
  {
    var start: State<C, R> := Start(cache);
    Stay(kit, start);
    var page := start.page.(id := 1);
    var a := start.(lastID := 1, page := page.(ui := Stamping));
    Go(kit, false, start, start, Enter, a);
    var b := start.(lastID := 1, store := start.store.(viewID := 1), page := page.(ui := Painting(AtPhase)));
    Go(kit, false, start, a, UiStep, b);
    s := PageReads(kit, start, b);
  }

  /** OnEnter's own reading of the store, from the phase to the painted page. */
  lemma PageReads<C(!new), R>(kit: Kit<C, R>, start: State<C, R>, b: State<C, R>) returns (s: State<C, R>)
    requires Reaches(kit, false, start, b) && b.page.ui == Painting(AtPhase)
    ensures s == b.(page := b.page.(ui := Free, remote := Some(Current(kit, b.store))))
    ensures Reaches(kit, false, start, s)
  {
    var store := b.store;
    var c := b.(page := b.page.(ui := Painting(AtSync(store.phase, store.err))));
    Go(kit, false, start, b, UiStep, c);
    var d := b.(page := b.page.(ui := Painting(AtRows(Upgrade(store.phase, store.synced), store.err))));
    Go(kit, false, start, c, UiStep, d);
    var e := b.(page := b.page.(ui := Painting(Taken(Current(kit, store)))));
    Go(kit, false, start, d, UiStep, e);
    s := b.(page := b.page.(ui := Free, remote := Some(Current(kit, store))));
    Go(kit, false, start, e, UiStep, s);
  }

  /** So for every pair of caches some run of the program ends settled, with the page on top
      showing the first while the store holds the second. */
  lemma StalePageIsReachable<C(!new), R>(kit: Kit<C, R>, before: C, after: C)
    ensures exists t :: && Reachable(kit, t) && Showing(t) && t.store.cache == after
                        && t.page.remote.Some? && t.page.remote.value.rows == kit.project(before)
                        && t.page.remote != Some(Current(kit, t.store))
  {
    var s := EnteredPageShows(kit, before);
    BuriedPageGoesStale(kit, Start(before), s, after);
    var t :| && Reaches(kit, false, Start(before), t) && Showing(t) && t.store.cache == after
             && t.page.remote == s.page.remote
             && (t.page.remote == Some(Current(kit, t.store)) <==> s.page.remote == Some(Shown(kit, after)));
    assert Reachable(kit, t);
  }

  // ---- when the loop repairs it, and when it never does -----------------------------

  /** While the cache is not empty, the loop's own heartbeat brings the page up to date: without
      any new event, some run of ticks and deliveries shows the current cache. */
  lemma {:induction false} HeartbeatRepairs<C(!new), R>(kit: Kit<C, R>, start: State<C, R>, s: State<C, R>)
    requires Reaches(kit, true, start, s) && Showing(s) && kit.count(s.store.cache) > 0
    ensures exists t :: && Reaches(kit, true, start, t) && Showing(t) && t.store == s.store
                        && t.page.remote == Some(Current(kit, t.store))
    decreases if s.loop.sinceFlush < HEARTBEAT then HEARTBEAT - s.loop.sinceFlush else 0
  {
    TickToSwap(kit, true, start, s);
    var a := AtSwap(kit, s);
    if Late(kit, s) {
      SwapToSend(kit, true, start, a);
      DeliverShows(kit, start, s, Flushed(kit, a));
    } else {
      var b := s.(loop := Loop(Idle, s.loop.syncedOnce, s.loop.sinceFlush + INTERVAL));
      QuietTick(kit, start, s, b);
      HeartbeatRepairs(kit, start, b);
    }
  }

  /** The flushed snapshot is delivered and shown. */
  lemma DeliverShows<C(!new), R>(kit: Kit<C, R>, start: State<C, R>, s: State<C, R>, b: State<C, R>)
    requires Showing(s) && b == Flushed(kit, AtSwap(kit, s)) && Reaches(kit, true, start, b)
    ensures exists t :: && Reaches(kit, true, start, t) && Showing(t) && t.store == s.store
                        && t.page.remote == Some(Current(kit, t.store))
  {
    var now := Current(kit, s.store);
    assert b.store == s.store && Current(kit, AtSwap(kit, s).store) == now;
    var t := b.(inbox := [], page := s.page.(remote := Some(now), missed := None));
    assert b.inbox == [Message(s.store.viewID, now)] && b.inbox[1..] == [];
    Go(kit, true, start, b, Deliver, t);
    assert Showing(t);
  }

  /** A tick that is not late only counts. */
  lemma QuietTick<C(!new), R>(kit: Kit<C, R>, start: State<C, R>, s: State<C, R>, b: State<C, R>)
    requires Showing(s) && !Late(kit, s) && Reaches(kit, true, start, AtSwap(kit, s))
    requires b == s.(loop := Loop(Idle, s.loop.syncedOnce, s.loop.sinceFlush + INTERVAL))
    ensures Reaches(kit, true, start, b) && Showing(b)
  {
    Go(kit, true, start, AtSwap(kit, s), LoopStep, b);
  }

  // ---- and so does every run with enough ticks ---------------------------------------

  /** What goes on by itself while nobody pauses the store. */
  predicate Undisturbed<C>(step: Step<C>) { Unprompted(step) && !step.Pause? }

  ghost predicate AllUndisturbed<C>(steps: seq<Step<C>>) {
    forall i :: 0 <= i < |steps| ==> Undisturbed(steps[i])
  }

  function Ticks<C>(steps: seq<Step<C>>): nat {
    if steps == [] then 0 else (if steps[0].Tick? then 1 else 0) + Ticks(steps[1..])
  }

  /** Nothing but the dirty flag, the loop, the inbox and the page's rows differs from s. */
  ghost predicate Alike<C, R>(s: State<C, R>, u: State<C, R>) {
    && u.store.(dirty := false) == s.store && u.loop.syncedOnce == u.store.synced
    && u.page.ui.Free? && u.page.onTop && u.page.id == s.page.id
  }

  /** A flush under the page's id that has read nothing but what is current. */
  ghost predicate OnCourse<C, R>(kit: Kit<C, R>, s: State<C, R>, at: LoopAt<R>) {
    at.Flush? ==> at.id == s.store.viewID && PhaseGood(s.store, at.reading) && RowsGood(kit, s.store, at.reading)
  }

  /** No flush has been sent in n ticks: the loop counts towards one, or is bound for it. */
  ghost predicate Counting<C, R>(kit: Kit<C, R>, s: State<C, R>, u: State<C, R>, n: nat) {
    && u.inbox == [] && OnCourse(kit, s, u.loop.at)
    && var since := u.loop.sinceFlush;
    match u.loop.at
    case Idle => !u.store.dirty && since >= INTERVAL * n && (n == 0 || since < HEARTBEAT)
    case PauseCheck => !u.store.dirty && since + INTERVAL >= INTERVAL * n
    case Heart => !u.store.dirty && since + INTERVAL >= INTERVAL * n
    case Swap => u.store.dirty || (INTERVAL * n <= since < HEARTBEAT)
    case EdgeDirty => false
    case Exited => false
    case _ => true
  }

  /** A flush has been sent: everything sent is current, and it is queued or shown. */
  ghost predicate Sent<C, R>(kit: Kit<C, R>, s: State<C, R>, u: State<C, R>) {
    && (forall i :: 0 <= i < |u.inbox| ==> u.inbox[i] == Message(s.store.viewID, Current(kit, s.store)))
    && (u.inbox != [] || (u.page.remote == Some(Current(kit, s.store)) && u.page.missed.None?))
    && OnCourse(kit, s, u.loop.at) && !u.loop.at.EdgeDirty? && !u.loop.at.Exited?
  }

  ghost predicate Repairing<C, R>(kit: Kit<C, R>, s: State<C, R>, u: State<C, R>, n: nat) {
    Alike(s, u) && (Counting(kit, s, u, n) || Sent(kit, s, u))
  }

  ghost predicate Watched<C, R>(kit: Kit<C, R>, s: State<C, R>) {
    Showing(s) && kit.count(s.store.cache) > 0 && !s.store.stopped
  }

  lemma FlushRepairs<C, R>(kit: Kit<C, R>, s: State<C, R>, u: State<C, R>, n: nat)
    requires Watched(kit, s) && Repairing(kit, s, u, n) && u.loop.at.Flush?
    ensures Repairing(kit, s, LoopNext(kit, u), n)
  {
    var r := u.loop.at.reading;
    ReadKeepsGood(kit, u.store, r);
    assert r.Taken? ==> r.remote == Current(kit, s.store);
  }

  lemma TurnRepairs<C, R>(kit: Kit<C, R>, s: State<C, R>, u: State<C, R>, n: nat)
    requires Watched(kit, s) && Repairing(kit, s, u, n) && !u.loop.at.Flush?
    ensures Repairing(kit, s, LoopNext(kit, u), n)
  {
  }

  lemma DeliverRepairs<C, R>(kit: Kit<C, R>, s: State<C, R>, u: State<C, R>, n: nat)
    requires Watched(kit, s) && Repairing(kit, s, u, n) && u.inbox != []
    ensures Repairing(kit, s, DeliverNext(u), n)
  {
    assert u.inbox[0] == Message(s.store.viewID, Current(kit, s.store));
  }

  lemma TickRepairs<C, R>(kit: Kit<C, R>, s: State<C, R>, u: State<C, R>, n: nat)
    requires Watched(kit, s) && Repairing(kit, s, u, n) && u.loop.at.Idle?
    ensures Repairing(kit, s, TickNext(u), n + 1)
  {
  }

  lemma StepRepairs<C, R>(kit: Kit<C, R>, s: State<C, R>, u: State<C, R>, n: nat, step: Step<C>)
    requires Watched(kit, s) && Repairing(kit, s, u, n) && Enabled(u, step) && Undisturbed(step)
    ensures Repairing(kit, s, Do(kit, u, step), n + if step.Tick? then 1 else 0)
  {
    if step.Tick? {
      TickRepairs(kit, s, u, n);
    } else if step.LoopStep? {
      if u.loop.at.Flush? {
        FlushRepairs(kit, s, u, n);
      } else {
        TurnRepairs(kit, s, u, n);
      }
    } else if step.Deliver? {
      DeliverRepairs(kit, s, u, n);
    }
  }

  lemma {:induction false} RunRepairs<C, R>(kit: Kit<C, R>, s: State<C, R>, u: State<C, R>, n: nat, steps: seq<Step<C>>, t: State<C, R>)
    requires Watched(kit, s) && Repairing(kit, s, u, n) && Leads(kit, u, steps, t) && AllUndisturbed(steps)
    ensures Repairing(kit, s, t, n + Ticks(steps))
    decreases |steps|
  {
    if steps != [] {
      assert Undisturbed(steps[0]);
      StepRepairs(kit, s, u, n, steps[0]);
      assert forall i :: 0 <= i < |steps[1..]| ==> Undisturbed(steps[1..][i]);
      RunRepairs(kit, s, Do(kit, u, steps[0]), n + (if steps[0].Tick? then 1 else 0), steps[1..], t);
    }
  }

  /** With a non-empty cache, every run without a new event whose ticks add up to the heartbeat
      has brought the page up to date once the loop is idle and nothing is queued - whatever the
      page had missed. */
  lemma HeartbeatAlwaysRepairs<C, R>(kit: Kit<C, R>, s: State<C, R>, steps: seq<Step<C>>, t: State<C, R>)
    requires Watched(kit, s) && Leads(kit, s, steps, t) && AllUndisturbed(steps)
    requires INTERVAL * Ticks(steps) >= HEARTBEAT && t.loop.at.Idle? && t.inbox == []
    ensures t.page.remote == Some(Current(kit, t.store)) && t.page.missed.None?
    ensures t.store.(dirty := false) == s.store
  {
    assert Counting(kit, s, s, 0);
    RunRepairs(kit, s, s, 0, steps, t);
  }

  /** The heartbeat is two seconds, and a tick 150 milliseconds: fourteen ticks are enough. */
  lemma FourteenTicksRepair<C, R>(kit: Kit<C, R>, s: State<C, R>, steps: seq<Step<C>>, t: State<C, R>)
    requires Watched(kit, s) && Leads(kit, s, steps, t) && AllUndisturbed(steps)
    requires Ticks(steps) >= 14 && t.loop.at.Idle? && t.inbox == []
    ensures t.page.remote == Some(Current(kit, t.store)) && t.page.missed.None?
  {
    HeartbeatAlwaysRepairs(kit, s, steps, t);
  }

  ghost predicate Dormant<C, R>(kit: Kit<C, R>, s: State<C, R>) {
    && Settled(s) && kit.count(s.store.cache) == 0
    && (s.loop.at.Idle? || s.loop.at.PauseCheck? || s.loop.at.Heart? || s.loop.at.Swap? || s.loop.at.Exited?)
  }

  /** With an empty cache there is no heartbeat: once settled, no number of ticks ever changes
      what the page shows, current or not. */
  lemma {:induction false} EmptyCacheNeverRepairs<C, R>(kit: Kit<C, R>, s: State<C, R>, steps: seq<Step<C>>, t: State<C, R>)
    requires Dormant(kit, s) && Leads(kit, s, steps, t)
    requires AllUnprompted(steps)
    ensures t.page == s.page && t.store.cache == s.store.cache
    decreases |steps|
  {
    if steps != [] {
      assert Unprompted(steps[0]);
      DormantStays(kit, s, steps[0]);
      EmptyCacheNeverRepairs(kit, Do(kit, s, steps[0]), steps[1..], t);
    }
  }

  lemma DormantStays<C, R>(kit: Kit<C, R>, s: State<C, R>, step: Step<C>)
    requires Dormant(kit, s) && Enabled(s, step) && Unprompted(step)
    ensures Dormant(kit, Do(kit, s, step))
    ensures Do(kit, s, step).page == s.page && Do(kit, s, step).store.cache == s.store.cache
  {
  }
}
