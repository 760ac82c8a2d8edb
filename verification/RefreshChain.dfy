/** The token-guarded refresh ticks of the CRD browse page over the page stack
    (internal/view/crdbrowse.go, internal/app/app.go).

    The UI loop handles one message at a time; ticks are outstanding in between and go to
    whatever page is on top. Browse pages are also built off the UI loop, where the token
    counter is incremented by separate reads and writes. */
module RefreshChain {
  import opened Text

  datatype Page = Browse(token: nat) | Other

  /** A page constructor part-way through its increment of the token counter. */
  datatype Builder = HasRead(seen: nat) | HasWritten

  datatype State = State(
    counter: nat,           // crdTokenSeq
    builders: seq<Builder>,
    built: multiset<nat>,   // tokens of pages built and not yet pushed
    pages: seq<Page>,       // the stack; the last page is active
    ticks: multiset<nat>)   // tokens of the outstanding ticks

  datatype Step =
    | BuildRead
    | BuildWrite(who: nat)
    | BuildTake(who: nat)
    | PushBrowse(token: nat)
    | PushOther
    | Pop
    | Navigate
    | SwitchContext
    | Tick(token: nat)
    | Refresh

  const START := State(0, [], multiset{}, [], multiset{})

  predicate IsTop(pages: seq<Page>, p: Page) { pages != [] && pages[|pages| - 1] == p }

  /** Popping reveals a browse page, which takes a fresh token. */
  predicate Resumes(s: State) { |s.pages| > 1 && s.pages[|s.pages| - 2].Browse? }

  predicate Enabled(s: State, step: Step) {
    match step
    case BuildRead => true
    case BuildWrite(who) => who < |s.builders| && s.builders[who].HasRead?
    case BuildTake(who) => who < |s.builders| && s.builders[who].HasWritten?
    case PushBrowse(token) => token in s.built
    case PushOther => true
    case Pop => true
    case Navigate => true
    case SwitchContext => true
    case Tick(token) => token in s.ticks
    case Refresh => true
  }

  function Popped(s: State): State {
    if |s.pages| <= 1 then s
    else if Resumes(s) then
      var token := s.counter + 1;
      s.(counter := token, pages := s.pages[..|s.pages| - 2] + [Browse(token)], ticks := s.ticks + multiset{token})
    else s.(pages := s.pages[..|s.pages| - 1])
  }

  function Do(s: State, step: Step): State
    requires Enabled(s, step)
  {
    match step
    case BuildRead => s.(builders := s.builders + [HasRead(s.counter)])
    case BuildWrite(who) => s.(counter := s.builders[who].seen + 1, builders := s.builders[who := HasWritten])
    case BuildTake(who) =>
      s.(built := s.built + multiset{s.counter}, builders := s.builders[..who] + s.builders[who + 1..])
    case PushBrowse(token) =>
      s.(built := s.built - multiset{token}, pages := s.pages + [Browse(token)], ticks := s.ticks + multiset{token})
    case PushOther => s.(pages := s.pages + [Other])
    case Pop => Popped(s)
    case Navigate => s.(pages := [Other])
    case SwitchContext => s.(pages := [])
    case Tick(token) => if IsTop(s.pages, Browse(token)) then s else s.(ticks := s.ticks - multiset{token})
    case Refresh => s
  }

  /** Token allocations do not overlap: none starts while a constructor is part-way through one. */
  predicate Serial(s: State, step: Step) {
    step == BuildRead || (step == Pop && Resumes(s)) ==> s.builders == []
  }

  /** The steps lead from s to t; a serial run allocates tokens one at a time. */
  ghost predicate Leads(serial: bool, s: State, steps: seq<Step>, t: State)
    decreases |steps|
  {
    if steps == [] then s == t
    else
      && Enabled(s, steps[0]) && (serial ==> Serial(s, steps[0]))
      && Leads(serial, Do(s, steps[0]), steps[1..], t)
  }

  ghost predicate Reachable(serial: bool, s: State) { exists steps :: Leads(serial, START, steps, s) }

  // ---- the invariant ------------------------------------------------------------

  /** A token handed out earlier is strictly below the one a constructor is about to take. */
  predicate Issued(s: State, token: nat) {
    token <= s.counter && (|s.builders| == 1 && s.builders[0].HasWritten? ==> token < s.counter)
  }

  ghost predicate CounterInv(s: State) {
    && |s.builders| <= 1
    && (|s.builders| == 1 && s.builders[0].HasRead? ==> s.builders[0].seen == s.counter)
    && (forall t | t in s.built :: Issued(s, t))
    && (forall t | t in s.ticks :: Issued(s, t))
    && (forall i :: 0 <= i < |s.pages| && s.pages[i].Browse? ==> Issued(s, s.pages[i].token))
  }

  /** No two live pages share a token, and a page not yet pushed has no tick. */
  ghost predicate OwnersInv(s: State) {
    && (forall i, j :: 0 <= i < j < |s.pages| && s.pages[i].Browse? ==> s.pages[i] != s.pages[j])
    && (forall t | t in s.built :: s.built[t] == 1 && t !in s.ticks)
    && (forall i :: 0 <= i < |s.pages| && s.pages[i].Browse? ==> s.pages[i].token !in s.built)
  }

  /** The property: at most one outstanding tick per page, exactly one for the page on top. */
  ghost predicate SingleChain(s: State) {
    && (forall i :: 0 <= i < |s.pages| && s.pages[i].Browse? ==> s.ticks[s.pages[i].token] <= 1)
    && (s.pages != [] && s.pages[|s.pages| - 1].Browse? ==> s.ticks[s.pages[|s.pages| - 1].token] == 1)
  }

  ghost predicate Inv(s: State) { CounterInv(s) && OwnersInv(s) && SingleChain(s) }

  lemma BuildStep(s: State, step: Step)
    requires Inv(s) && Enabled(s, step) && Serial(s, step)
    requires step.BuildRead? || step.BuildWrite? || step.BuildTake?
    ensures Inv(Do(s, step))
  {
    var t := Do(s, step);
    if step.BuildTake? {
      assert t.builders == [];
      assert s.counter !in s.built && s.counter !in s.ticks;
    }
  }

  lemma PushStep(s: State, token: nat)
    requires Inv(s) && token in s.built
    ensures Inv(Do(s, PushBrowse(token)))
  {
    var t := Do(s, PushBrowse(token));
    assert forall i :: 0 <= i < |s.pages| ==> t.pages[i] == s.pages[i];
    assert forall u :: u in t.built ==> u in s.built && u != token;
  }

  lemma PlainStep(s: State, step: Step)
    requires Inv(s) && (step.PushOther? || step.Navigate? || step.SwitchContext? || step.Refresh?)
    ensures Inv(Do(s, step))
  {
    var t := Do(s, step);
    assert step.PushOther? || t.pages == [Other] || t.pages == [] || t == s;
    assert forall i :: 0 <= i < |t.pages| && t.pages[i].Browse? ==> i < |s.pages| && t.pages[i] == s.pages[i];
  }

  lemma TickStep(s: State, token: nat)
    requires Inv(s) && token in s.ticks
    ensures Inv(Do(s, Tick(token)))
  {
    var t := Do(s, Tick(token));
    assert forall u :: t.ticks[u] <= s.ticks[u];
  }

  lemma PopStep(s: State)
    requires Inv(s) && Serial(s, Pop)
    ensures Inv(Do(s, Pop))
  {
    var t := Do(s, Pop);
    if Resumes(s) {
      ResumeStep(s, t);
    } else if |s.pages| > 1 {
      assert forall i :: 0 <= i < |t.pages| ==> t.pages[i] == s.pages[i];
    }
  }

  lemma ResumeStep(s: State, t: State)
    requires Inv(s) && s.builders == [] && Resumes(s) && t == Popped(s)
    ensures Inv(t)
  {
    assert forall i :: 0 <= i < |t.pages| - 1 ==> t.pages[i] == s.pages[i];
    assert t.counter !in s.ticks && t.counter !in s.built;
  }

  lemma StepInv(s: State, step: Step)
    requires Inv(s) && Enabled(s, step) && Serial(s, step)
    ensures Inv(Do(s, step))
  {
    if step.BuildRead? || step.BuildWrite? || step.BuildTake? {
      BuildStep(s, step);
    } else if step.Pop? {
      PopStep(s);
    } else if step.PushBrowse? {
      PushStep(s, step.token);
    } else if step.Tick? {
      TickStep(s, step.token);
    } else {
      PlainStep(s, step);
    }
  }

  lemma {:induction false} RunInv(s: State, steps: seq<Step>, t: State)
    requires Inv(s) && Leads(true, s, steps, t)
    ensures Inv(t)
    decreases |steps|
  {
    if steps != [] {
      StepInv(s, steps[0]);
      RunInv(Do(s, steps[0]), steps[1..], t);
    }
  }

  /** Over every run whose token allocations do not overlap, every browse page has at most
      one outstanding tick with its token, and exactly one whenever it is on top. */
  lemma SingleRefreshChain(s: State)
    requires Reachable(true, s)
    ensures SingleChain(s)
  {
    var steps :| Leads(true, START, steps, s);
    RunInv(START, steps, s);
  }

  // ---- serial allocation is the exact condition ------------------------------------

  lemma {:induction false} LeadsSnoc(serial: bool, s: State, steps: seq<Step>, t: State, step: Step)
    requires Leads(serial, s, steps, t) && Enabled(t, step) && (serial ==> Serial(t, step))
    ensures Leads(serial, s, steps + [step], Do(t, step))
    decreases |steps|
  {
    if steps == [] {
      assert [step][1..] == [];
    } else {
      LeadsSnoc(serial, Do(s, steps[0]), steps[1..], t, step);
      Uncons(steps, [step]);
    }
  }

  /** Some run with serial allocations leads from s to t. */
  ghost predicate GoesTo(s: State, t: State) { exists steps :: Leads(true, s, steps, t) }

  lemma Go(s: State, t: State, step: Step, u: State)
    requires GoesTo(s, t) && Enabled(t, step) && Serial(t, step) && u == Do(t, step)
    ensures GoesTo(s, u)
  {
    var steps :| Leads(true, s, steps, t);
    LeadsSnoc(true, s, steps, t, step);
  }

  /** However the run goes on with serial allocations, no chain dies or doubles. */
  ghost predicate StaysSingle(s: State) { forall steps, t :: Leads(true, s, steps, t) ==> SingleChain(t) }

  /** A step that allocates a token. */
  predicate Allocates(s: State, step: Step) { step == BuildRead || (step == Pop && Resumes(s)) }

  /** A constructor about to take the token that a page on the stack already ticks with. */
  lemma SharedTokenDoubles(s: State, t: State)
    requires GoesTo(s, t) && t.builders == [HasWritten] && t.ticks[t.counter] >= 1
    ensures exists u :: GoesTo(s, u) && !SingleChain(u)
  {
    var k := t.counter;
    var v := t.(built := t.built + multiset{k}, builders := []);
    Go(s, t, BuildTake(0), v);
    var u := Do(v, PushBrowse(k));
    Go(s, v, PushBrowse(k), u);
    assert u.pages[|u.pages| - 1] == Browse(k) && u.ticks[k] >= 2;
  }

  /** Two constructors about to take the same token. */
  lemma SameTokenTwice(s: State, t: State)
    requires GoesTo(s, t) && t.builders == [HasWritten, HasWritten]
    ensures exists u :: GoesTo(s, u) && !SingleChain(u)
  {
    var k := t.counter;
    var v := t.(built := t.built + multiset{k}, builders := [HasWritten]);
    Go(s, t, BuildTake(0), v);
    var w := Do(v, PushBrowse(k));
    Go(s, v, PushBrowse(k), w);
    SharedTokenDoubles(s, w);
  }

  lemma OverlappingPop(s: State)
    requires Inv(s) && Resumes(s) && |s.builders| == 1
    ensures !StaysSingle(Do(s, Pop))
  {
    var u := Do(s, Pop);
    assert Leads(true, u, [], u);
    var t := u.(builders := [HasWritten]);
    if s.builders[0].HasRead? {
      Go(u, u, BuildWrite(0), t);
    } else {
      assert s.builders == [HasWritten] && t == u;
    }
    SharedTokenDoubles(u, t);
  }

  lemma OverlappingBuild(s: State)
    requires Inv(s) && |s.builders| == 1
    ensures !StaysSingle(Do(s, BuildRead))
  {
    var u := Do(s, BuildRead);
    assert Leads(true, u, [], u);
    var w := u.(counter := s.counter + 1, builders := [s.builders[0], HasWritten]);
    Go(u, u, BuildWrite(1), w);
    var t := w.(builders := [HasWritten, HasWritten]);
    if s.builders[0].HasRead? {
      Go(u, w, BuildWrite(0), t);
    }
    SameTokenTwice(u, t);
  }

  /** In every run that has been serial so far, allocating a token is safe, however the run
      goes on, if and only if no constructor is part-way through allocating one. */
  lemma AllocationIsSafeIff(s: State, step: Step)
    requires Reachable(true, s) && Allocates(s, step)
    ensures StaysSingle(Do(s, step)) <==> s.builders == []
  {
    var steps :| Leads(true, START, steps, s);
    RunInv(START, steps, s);
    if s.builders == [] {
      StepInv(s, step);
      forall more, t | Leads(true, Do(s, step), more, t) ensures SingleChain(t) {
        RunInv(Do(s, step), more, t);
      }
    } else if step == Pop {
      OverlappingPop(s);
    } else {
      OverlappingBuild(s);
    }
  }

  // ---- an example ------------------------------------------------------------------

  lemma ReachStep(s: State, step: Step, t: State)
    requires Reachable(false, s) && Enabled(s, step) && t == Do(s, step)
    ensures Reachable(false, t)
  {
    var steps :| Leads(false, START, steps, s);
    LeadsSnoc(false, START, steps, s, step);
  }

  lemma ReachBuilt()
    ensures Reachable(false, State(1, [], multiset{1}, [], multiset{}))
  {
    assert Leads(false, START, [], START);
    var s1 := State(0, [HasRead(0)], multiset{}, [], multiset{});
    ReachStep(START, BuildRead, s1);
    var s2 := State(1, [HasWritten], multiset{}, [], multiset{});
    ReachStep(s1, BuildWrite(0), s2);
    ReachStep(s2, BuildTake(0), State(1, [], multiset{1}, [], multiset{}));
  }

  /** A browse page under a drill-in, and a second one about to be built. */
  lemma ReachDrillIn()
    ensures Reachable(false, State(1, [HasRead(1)], multiset{}, [Browse(1), Other], multiset{1}))
  {
    ReachBuilt();
    var s4 := State(1, [], multiset{}, [Browse(1)], multiset{1});
    ReachStep(State(1, [], multiset{1}, [], multiset{}), PushBrowse(1), s4);
    var s5 := s4.(pages := [Browse(1), Other]);
    ReachStep(s4, PushOther, s5);
    ReachStep(s5, BuildRead, s5.(builders := [HasRead(1)]));
  }

  lemma ReachResumed()
    ensures Reachable(false, State(2, [HasRead(1)], multiset{}, [Browse(2)], multiset{1} + multiset{2}))
  {
    ReachDrillIn();
    var s := State(1, [HasRead(1)], multiset{}, [Browse(1), Other], multiset{1});
    assert Popped(s).pages == [Browse(2)];
    ReachStep(s, Pop, State(2, [HasRead(1)], multiset{}, [Browse(2)], multiset{1} + multiset{2}));
  }

  lemma ReachSameToken(ticks: multiset<nat>)
    requires Reachable(false, State(2, [HasRead(1)], multiset{}, [Browse(2)], ticks))
    ensures Reachable(false, State(2, [], multiset{2}, [Browse(2)], ticks))
  {
    var s1 := State(2, [HasRead(1)], multiset{}, [Browse(2)], ticks);
    var s2 := s1.(builders := [HasWritten]);
    ReachStep(s1, BuildWrite(0), s2);
    ReachStep(s2, BuildTake(0), s1.(builders := [], built := multiset{2}));
  }

  /** If the drill-in is popped while the constructor is part-way, both pages get token 2 and
      the page on top ends up with two outstanding ticks: the chain has doubled. */
  lemma OverlappingAllocationsDoubleTheChain()
    ensures exists s :: Reachable(false, s) && !SingleChain(s)
  {
    var ticks := multiset{1} + multiset{2};
    ReachResumed();
    ReachSameToken(ticks);
    var s := State(2, [], multiset{2}, [Browse(2)], ticks);
    var t := State(2, [], multiset{}, [Browse(2), Browse(2)], ticks + multiset{2});
    ReachStep(s, PushBrowse(2), t);
    assert t.ticks[2] == 2;
  }

  // ---- the root model's handlers ---------------------------------------------------

  class Root {
    var counter: nat
    var built: multiset<nat>
    var pages: seq<Page>
    var ticks: multiset<nat>

    constructor ()
      ensures View() == START
    {
      counter, built, pages, ticks := 0, multiset{}, [], multiset{};
    }

    ghost function View(): State
      reads this
    {
      State(counter, [], built, pages, ticks)
    }

    method NewBrowse() returns (token: nat)
      modifies this
      ensures token == old(counter) + 1
      ensures View() == old(View()).(counter := token, built := old(built) + multiset{token})
    {
      counter := counter + 1;
      token := counter;
      built := built + multiset{token};
    }

    /** pushPage followed by the page's OnEnter. */
    method PushPage(p: Page)
      requires p.Browse? ==> p.token in built
      modifies this
      ensures View() == Do(old(View()), if p.Browse? then PushBrowse(p.token) else PushOther)
      ensures pages == old(pages) + [p] && counter == old(counter)
      ensures ticks == if p.Browse? then old(ticks) + multiset{p.token} else old(ticks)
    {
      pages := pages + [p];
      if p.Browse? {
        built := built - multiset{p.token};
        ticks := ticks + multiset{p.token};
      }
    }

    /** popPage: the base page is never popped; a revealed browse page re-arms. */
    method PopPage()
      modifies this
      ensures View() == Do(old(View()), Pop)
      ensures |old(pages)| <= 1 ==> View() == old(View())
      ensures |old(pages)| > 1 ==>
                && |pages| == |old(pages)| - 1 && pages[..|pages| - 1] == old(pages)[..|pages| - 1]
                && var below := old(pages)[|pages| - 1];
                if below.Browse?
                then counter == old(counter) + 1 && pages[|pages| - 1] == Browse(counter) && ticks == old(ticks) + multiset{counter}
                else counter == old(counter) && pages[|pages| - 1] == below && ticks == old(ticks)
    {
      if |pages| <= 1 {
        return;
      }
      pages := pages[..|pages| - 1];
      var top := pages[|pages| - 1];
      if top.Browse? {
        counter := counter + 1;
        pages := pages[|pages| - 1 := Browse(counter)];
        ticks := ticks + multiset{counter};
        assert pages == old(pages)[..|old(pages)| - 2] + [Browse(counter)];
      }
    }

    /** routeToPage for a tick: the active page re-arms only for its own token. */
    method RouteTick(token: nat)
      requires token in ticks
      modifies this
      ensures View() == Do(old(View()), Tick(token))
      ensures pages == old(pages) && counter == old(counter)
      ensures ticks == if old(pages) != [] && old(pages)[|old(pages)| - 1] == Browse(token)
                       then old(ticks) else old(ticks) - multiset{token}
    {
      ticks := ticks - multiset{token};
      if pages != [] && pages[|pages| - 1] == Browse(token) {
        ticks := ticks + multiset{token};
        assert ticks == old(ticks);
      }
    }

    method Navigate()
      modifies this
      ensures View() == Do(old(View()), Step.Navigate)
      ensures pages == [Other] && ticks == old(ticks)
    {
      pages := [Other];
    }

    method SwitchContext()
      modifies this
      ensures View() == Do(old(View()), Step.SwitchContext)
      ensures pages == [] && ticks == old(ticks)
    {
      pages := [];
    }
  }
}
