/** The store and engine objects (internal/engine/store.go, internal/engine/engine.go), one call
    at a time; Pipeline.dfy interleaves the same store operations step by step. */
module Engine {
  import opened Text
  import opened Pipeline

  class ViewStore<C, R> {
    const kind: string
    ghost const namespace: string  // what the factory was called with
    const kit: Kit<C, R>

    var cache: C
    var synced: bool
    var phase: Phase
    var err: Option<string>
    var dirty: bool
    var paused: bool
    var viewID: nat
    var stopped: bool
    var started: bool

    ghost function View(): Store<C>
      reads this
    {
      Store(cache, synced, phase, err, dirty, paused, viewID, stopped)
    }

    constructor (kind: string, ghost namespace: string, kit: Kit<C, R>, empty: C)
      ensures this.kind == kind && this.namespace == namespace && this.kit == kit
      ensures View() == Start<C, R>(empty).store && !started
    {
      this.kind, this.namespace, this.kit := kind, namespace, kit;
      cache, synced := empty, false;
      phase, err := Loading, None;
      dirty, paused, viewID, stopped, started := false, false, 0, false, false;
    }

    /** Idempotent; it only starts the informer and the loop, and never flushes. */
    method Begin()
      modifies this
      ensures started && View() == old(View())
    {
      if !started {
        started := true;
      }
    }

    method Stop()
      modifies this
      ensures View() == old(View()).(stopped := true) && started == old(started)
    {
      stopped := true;
    }

    method SetViewID(id: nat)
      modifies this
      ensures View() == old(View()).(viewID := id) && started == old(started)
    {
      viewID := id;
    }

    method Pause()
      modifies this
      ensures View() == old(View()).(paused := true) && started == old(started)
    {
      paused := true;
    }

    method ResumeAndFlush()
      modifies this
      ensures View() == old(View()).(paused := false, dirty := true) && started == old(started)
    {
      paused := false;
      dirty := true;
    }

    function CurrentPhase(): (p: Phase)
      reads this
      ensures p != Loading ==> p == if phase == Loading then Ready else phase
      ensures p == Loading <==> phase == Loading && !synced
    {
      if phase == Loading && synced then Ready else phase
    }

    method OnEvent()
      modifies this
      ensures View() == Pipeline.OnEvent(old(View())).(dirty := true) && started == old(started)
      ensures old(phase) != Terminal ==> phase == Ready && err == None
      ensures old(phase) == Terminal ==> phase == Terminal && err == old(err)
    {
      if phase != Terminal {
        phase, err := Ready, None;
      }
      dirty := true;
    }

    /** A terminal error stops the store and flushes at once; a transient one marks it stale,
        unless it is already terminal. */
    method OnWatchError(terminal: bool, reason: string) returns (sent: Option<Message<R>>)
      modifies this
      ensures started == old(started)
      ensures terminal ==>
                && View() == old(View()).(phase := Terminal, err := Some(reason), stopped := true)
                && sent == Some(Message(viewID, Current(kit, View())))
      ensures !terminal ==> View() == OnTransient(old(View()), reason).(dirty := true) && sent == None
      ensures !terminal && old(phase) != Terminal ==> phase == Stale && err == Some(reason)
      ensures !terminal && old(phase) == Terminal ==> phase == Terminal && err == old(err)
    {
      if terminal {
        phase, err := Terminal, Some(reason);
        Stop();
        var m := Flush();
        return Some(m);
      }
      if phase != Terminal {
        phase, err := Stale, Some(reason);
      }
      dirty := true;
      sent := None;
    }

    method Snapshot() returns (r: Remote<R>)
      ensures r == Current(kit, View())
      ensures r == Remote(if phase == Loading && synced then Ready else phase, kit.project(cache), err)
    {
      var p, e := phase, err;
      if p == Loading && synced {
        p := Ready;
      }
      r := Remote(p, kit.project(cache), e);
    }

    method Flush() returns (m: Message<R>)
      ensures m == Message(viewID, Current(kit, View()))
    {
      var snap := Snapshot();
      m := Message(viewID, snap);
    }

    /** One tick of the loop, uninterrupted: it sends the current snapshot exactly when it is
        not paused and something made it dirty - a mark, the sync edge, or a late heartbeat. */
    method OnTick(syncedOnce: bool, sinceFlush: nat) returns (seen: bool, since: nat, sent: Option<Message<R>>)
      modifies this
      ensures started == old(started) && seen == (syncedOnce || synced)
      ensures var edge := !syncedOnce && synced;
              var late := sinceFlush + INTERVAL >= HEARTBEAT && kit.count(cache) > 0;
              if old(paused) then
                View() == old(View()).(dirty := old(dirty) || edge) && since == sinceFlush && sent == None
              else
                && View() == old(View()).(dirty := false)
                && (sent.Some? <==> old(dirty) || edge || late)
                && (sent.Some? ==> sent.value == Message(viewID, Current(kit, View())) && since == 0)
                && (sent.None? ==> since == sinceFlush + INTERVAL)
    {
      seen, since, sent := syncedOnce, sinceFlush, None;
      if !seen && synced {
        seen := true;
        dirty := true;
      }
      if paused {
        return;
      }
      since := since + INTERVAL;
      if since >= HEARTBEAT && kit.count(cache) > 0 {
        dirty := true;
      }
      var was := dirty;
      dirty := false;
      if was {
        var m := Flush();
        sent, since := Some(m), 0;
      }
    }
  }

  lemma PutBack<K, V>(m: map<K, V>, k: K, v: V)
    ensures (m - {k})[k := v] == m[k := v]
  {
  }

  class Engine<C, R> {
    const kit: Kit<C, R>
    const empty: C
    var factories: set<string>
    var warm: map<string, bool>
    var stores: map<string, ViewStore<C, R>>
    var ns: map<string, string>
    ghost var built: set<ViewStore<C, R>>  // every store this engine ever built

    /** The lifecycle invariant: every store ever built is the one mapped for its kind or is
        stopped, and the recorded namespace is the one it was built for. */
    ghost predicate Valid()
      reads this, built
    {
      && ns.Keys == stores.Keys
      && (forall k | k in stores ::
            stores[k] in built && stores[k].kind == k && stores[k].namespace == ns[k] && stores[k].started)
      && (forall vs | vs in built :: vs.stopped || (vs.kind in stores && stores[vs.kind] == vs))
    }

    constructor (kit: Kit<C, R>, empty: C)
      ensures Valid() && stores == map[] && built == {} && factories == {}
    {
      this.kit, this.empty := kit, empty;
      factories, warm, stores, ns, built := {}, map[], map[], map[], {};
    }

    method Register(kind: string, keepWarm: bool)
      requires Valid()
      modifies this
      ensures Valid() && stores == old(stores) && ns == old(ns) && built == old(built)
      ensures factories == old(factories) + {kind} && warm == old(warm)[kind := keepWarm]
    {
      factories := factories + {kind};
      warm := warm[kind := keepWarm];
    }

    predicate Mapped(vs: ViewStore<C, R>)
      reads this
    {
      vs.kind in stores && stores[vs.kind] == vs
    }

    /** The mapped store is handed back as it is. */
    predicate Reusable(kind: string, namespace: string)
      requires ns.Keys == stores.Keys
      reads this, if kind in stores then {stores[kind]} else {}
    {
      kind in stores && ns[kind] == namespace && stores[kind].CurrentPhase() != Terminal
    }

    /** Hands back the mapped store exactly when it is for this namespace and not terminal;
        otherwise stops it and builds a fresh one. No other store is touched. */
    method Ensure(kind: string, namespace: string) returns (r: Option<ViewStore<C, R>>)
      requires Valid()
      modifies this, built
      ensures Valid() && factories == old(factories) && warm == old(warm)
      ensures r.None? <==> kind !in factories
      ensures r.None? ==> stores == old(stores) && ns == old(ns) && built == old(built)
      ensures r.Some? ==>
                && kind in stores && stores[kind] == r.value && ns[kind] == namespace
                && r.value.namespace == namespace && r.value.CurrentPhase() != Terminal && r.value.started
                && stores == old(stores)[kind := r.value] && ns == old(ns)[kind := namespace]
                && (old(Reusable(kind, namespace)) ==> r.value == old(stores[kind]) && built == old(built))
                && (!old(Reusable(kind, namespace)) ==>
                      && fresh(r.value) && r.value.View() == Start<C, R>(empty).store
                      && built == old(built) + {r.value})
                && (forall vs | vs in old(built) :: vs.View() ==
                      if !old(Reusable(kind, namespace)) && old(Mapped(vs)) && vs.kind == kind
                      then old(vs.View()).(stopped := true) else old(vs.View()))
    {
      if kind !in factories {
        return None;
      }
      if kind in stores {
        var vs := stores[kind];
        if ns[kind] == namespace && vs.CurrentPhase() != Terminal {
          assert stores == stores[kind := vs] && ns == ns[kind := namespace];
          return Some(vs);
        }
      }
      var vs := Rebuild(kind, namespace);
      r := Some(vs);
    }

    /** Stops what is mapped for the kind and builds a fresh store in its place. */
    method Rebuild(kind: string, namespace: string) returns (vs: ViewStore<C, R>)
      requires Valid()
      modifies this, built
      ensures Valid() && factories == old(factories) && warm == old(warm)
      ensures stores == old(stores)[kind := vs] && ns == old(ns)[kind := namespace]
      ensures fresh(vs) && built == old(built) + {vs}
      ensures vs.namespace == namespace && vs.View() == Start<C, R>(empty).store && vs.started
      ensures forall x | x in old(built) :: x.View() ==
                if old(Mapped(x)) && x.kind == kind then old(x.View()).(stopped := true) else old(x.View())
    {
      ghost var was, names := stores, ns;
      StopKind(kind);
      vs := Build(kind, namespace);
      PutBack(was, kind, vs);
      PutBack(names, kind, namespace);
    }

    /** Calls the factory and starts the store. */
    method Build(kind: string, namespace: string) returns (vs: ViewStore<C, R>)
      requires Valid() && kind !in stores
      modifies this
      ensures Valid() && factories == old(factories) && warm == old(warm)
      ensures stores == old(stores)[kind := vs] && ns == old(ns)[kind := namespace]
      ensures fresh(vs) && built == old(built) + {vs}
      ensures vs.namespace == namespace && vs.View() == Start<C, R>(empty).store && vs.started
    {
      vs := new ViewStore(kind, namespace, kit, empty);
      vs.Begin();
      stores := stores[kind := vs];
      ns := ns[kind := namespace];
      built := built + {vs};
    }

    method StopKind(kind: string)
      requires Valid()
      modifies this, built
      ensures Valid() && factories == old(factories) && warm == old(warm) && built == old(built)
      ensures stores == old(stores) - {kind} && ns == old(ns) - {kind}
      ensures forall vs | vs in built :: vs.View() ==
                if old(Mapped(vs)) && vs.kind == kind then old(vs.View()).(stopped := true) else old(vs.View())
    {
      var found := kind in stores;
      if found {
        var vs := stores[kind];
        stores := stores - {kind};
        ns := ns - {kind};
        vs.Stop();
      } else {
        assert stores == stores - {kind} && ns == ns - {kind};
      }
    }

    method StopIfScreenScoped(kind: string)
      requires Valid()
      modifies this, built
      ensures Valid() && factories == old(factories) && warm == old(warm) && built == old(built)
      ensures stores == if kind in warm && warm[kind] then old(stores) else old(stores) - {kind}
      ensures forall vs | vs in built :: vs.View() ==
                if !(kind in warm && warm[kind]) && old(Mapped(vs)) && vs.kind == kind
                then old(vs.View()).(stopped := true) else old(vs.View())
    {
      if kind !in warm || !warm[kind] {
        StopKind(kind);
      }
    }

    /** Disposing the session: nothing stays mapped and everything ever built is stopped. */
    method StopAll()
      requires Valid()
      modifies this, built
      ensures Valid() && factories == old(factories) && warm == old(warm) && built == old(built)
      ensures stores == map[] && forall vs | vs in built :: vs.View() == old(vs.View()).(stopped := true)
    {
      var live := Live();
      stores := map[];
      ns := map[];
      StopEach(live);
    }

    /** The stores mapped now, copied out of the map before they are visited. */
    function Live(): (live: set<ViewStore<C, R>>)
      reads this
      ensures forall k | k in stores :: stores[k] in live
      ensures forall vs | vs in live :: exists k | k in stores :: stores[k] == vs
    {
      set k | k in stores :: stores[k]
    }

    static method StopEach(live: set<ViewStore<C, R>>)
      modifies live
      ensures forall vs | vs in live :: vs.View() == old(vs.View()).(stopped := true) && vs.started == old(vs.started)
    {
      var todo := live;
      while todo != {}
        invariant todo <= live
        invariant forall vs | vs in live :: vs.started == old(vs.started) && vs.View() ==
                    if vs in todo then old(vs.View()) else old(vs.View()).(stopped := true)
        decreases |todo|
      {
        var vs :| vs in todo;
        todo := todo - {vs};
        vs.Stop();
      }
    }

    static method PauseEach(live: set<ViewStore<C, R>>)
      modifies live
      ensures forall vs | vs in live :: vs.View() == old(vs.View()).(paused := true) && vs.started == old(vs.started)
    {
      var todo := live;
      while todo != {}
        invariant todo <= live
        invariant forall vs | vs in live :: vs.started == old(vs.started) && vs.View() ==
                    if vs in todo then old(vs.View()) else old(vs.View()).(paused := true)
        decreases |todo|
      {
        var vs :| vs in todo;
        todo := todo - {vs};
        vs.Pause();
      }
    }

    static method ResumeEach(live: set<ViewStore<C, R>>)
      modifies live
      ensures forall vs | vs in live ::
                vs.View() == old(vs.View()).(paused := false, dirty := true) && vs.started == old(vs.started)
    {
      var todo := live;
      while todo != {}
        invariant todo <= live
        invariant forall vs | vs in live :: vs.started == old(vs.started) && vs.View() ==
                    if vs in todo then old(vs.View()) else old(vs.View()).(paused := false, dirty := true)
        decreases |todo|
      {
        var vs :| vs in todo;
        todo := todo - {vs};
        vs.ResumeAndFlush();
      }
    }

    method PauseAll()
      requires Valid()
      modifies built
      ensures Valid()
      ensures forall vs | vs in built :: vs.View() ==
                if Mapped(vs) then old(vs.View()).(paused := true) else old(vs.View())
    {
      PauseEach(Live());
    }

    method ResumeAllAndFlush()
      requires Valid()
      modifies built
      ensures Valid()
      ensures forall vs | vs in built :: vs.View() ==
                if Mapped(vs) then old(vs.View()).(paused := false, dirty := true) else old(vs.View())
    {
      ResumeEach(Live());
    }

    /** Watch activity on any store this engine ever built keeps the lifecycle invariant. */
    method Watch(vs: ViewStore<C, R>, error: Option<(bool, string)>) returns (sent: Option<Message<R>>)
      requires Valid() && vs in built
      modifies vs
      ensures Valid()
      ensures old(vs.phase) == Terminal ==> vs.phase == Terminal
      ensures old(vs.stopped) ==> vs.stopped
      ensures vs.phase == Terminal && old(vs.phase) != Terminal ==> vs.stopped
      ensures sent.Some? ==> sent.value == Message(vs.viewID, Current(vs.kit, vs.View()))
    {
      sent := None;
      if error.Some? {
        sent := vs.OnWatchError(error.value.0, error.value.1);
      } else {
        vs.OnEvent();
      }
    }
  }
}
