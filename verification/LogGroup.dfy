/** Many log readers, one flusher and one closing reader over a shared buffer
    (internal/action/logstream/group.go and options.go), as interleaved atomic steps.
    Draining and sending are separate steps, so batches can be sent out of drain order and a
    batch can follow the end message; every claim is made in drain order. */
module LogGroup {
  import opened Text
  import opened LogBuffer

  /** The reader countdown is a 32-bit counter. */
  const WORD: nat := 0x1_0000_0000

  /** A batch message remembers which drain it carries. */
  datatype Message = BatchMsg(drain: nat, batch: Batch) | EndedMsg

  datatype Flusher = Waiting | Holding(drain: nat) | Exited

  /** The reader that finished last, walking through its terminal flush. */
  datatype Closer = Draining | Carrying(drain: nat) | Stopping | Ending | Finished

  datatype State = State(
    cap: nat,
    running: nat,          // readers that have not finished
    remaining: nat,        // the countdown, modulo WORD
    buffer: Batch,
    flusher: Flusher,
    closers: seq<Closer>,
    stopped: bool,         // stopFlush closed
    cancelled: bool,
    sent: seq<Message>,
    history: seq<string>,  // every line ever appended
    drains: seq<Batch>)    // every non-empty drain, in order

  datatype Step =
    | Append(line: string)
    | ReaderDone
    | Tick
    | FlusherSends
    | FlusherExits
    | CloserDrains(who: nat)
    | CloserSends(who: nat)
    | CloserStops(who: nat)
    | CloserEnds(who: nat)
    | Cancel
    | StopFlushing

  /** Add(-1) on the wrapping counter. */
  function CountDown(remaining: nat): nat { if remaining == 0 then WORD - 1 else remaining - 1 }

  /** The group as started for n pods; with no pods the starter itself ends the stream. */
  function Start(n: nat, cap: nat): State {
    State(cap, n, n % WORD, EMPTY, Waiting, if n == 0 then [Stopping] else [], false, false, [], [], [])
  }

  predicate At(s: State, who: nat, c: Closer) { who < |s.closers| && s.closers[who] == c }

  predicate Enabled(s: State, step: Step) {
    match step
    case Append(_) => s.running > 0
    case ReaderDone => s.running > 0
    case Tick => s.flusher == Waiting
    case FlusherSends => s.flusher.Holding? && s.flusher.drain < |s.drains|
    case FlusherExits => s.flusher == Waiting && (s.stopped || s.cancelled)
    case CloserDrains(who) => At(s, who, Draining)
    case CloserSends(who) => who < |s.closers| && s.closers[who].Carrying? && s.closers[who].drain < |s.drains|
    case CloserStops(who) => At(s, who, Stopping)
    case CloserEnds(who) => At(s, who, Ending)
    case Cancel => true
    case StopFlushing => true
  }

  function Move(s: State, who: nat, c: Closer): State
    requires who < |s.closers|
  {
    s.(closers := s.closers[who := c])
  }

  function Drained(s: State): State {
    s.(buffer := EMPTY, drains := s.drains + [s.buffer])
  }

  function Do(s: State, step: Step): State
    requires Enabled(s, step)
  {
    match step
    case Append(line) => s.(buffer := Extended(s.buffer, s.cap, line), history := s.history + [line])
    case ReaderDone =>
      var left := CountDown(s.remaining);
      s.(running := s.running - 1, remaining := left,
         closers := if left == 0 then s.closers + [Draining] else s.closers)
    case Tick => if s.buffer == EMPTY then s else Drained(s).(flusher := Holding(|s.drains|))
    case FlusherSends =>
      s.(sent := s.sent + [BatchMsg(s.flusher.drain, s.drains[s.flusher.drain])], flusher := Waiting)
    case FlusherExits => s.(flusher := Exited)
    case CloserDrains(who) =>
      if s.buffer == EMPTY then Move(s, who, Stopping) else Move(Drained(s), who, Carrying(|s.drains|))
    case CloserSends(who) =>
      var k := s.closers[who].drain;
      Move(s.(sent := s.sent + [BatchMsg(k, s.drains[k])]), who, Stopping)
    case CloserStops(who) => Move(s.(stopped := true), who, Ending)
    case CloserEnds(who) => Move(s.(sent := s.sent + [EndedMsg]), who, Finished)
    case Cancel => s.(cancelled := true)
    case StopFlushing => s.(stopped := true)
  }

  /** The steps lead from s to t. */
  ghost predicate Leads(s: State, steps: seq<Step>, t: State)
    decreases |steps|
  {
    if steps == [] then s == t else Enabled(s, steps[0]) && Leads(Do(s, steps[0]), steps[1..], t)
  }

  ghost predicate Reachable(n: nat, cap: nat, s: State) {
    exists steps :: Leads(Start(n, cap), steps, s)
  }

  lemma {:induction false} LeadsSnoc(s: State, steps: seq<Step>, t: State, step: Step)
    requires Leads(s, steps, t) && Enabled(t, step)
    ensures Leads(s, steps + [step], Do(t, step))
    decreases |steps|
  {
    if steps == [] {
      assert [step][1..] == [];
    } else {
      LeadsSnoc(Do(s, steps[0]), steps[1..], t, step);
      Uncons(steps, [step]);
    }
  }

  lemma ReachStep(n: nat, cap: nat, s: State, step: Step)
    requires Reachable(n, cap, s) && Enabled(s, step)
    ensures Reachable(n, cap, Do(s, step))
  {
    var steps :| Leads(Start(n, cap), steps, s);
    LeadsSnoc(Start(n, cap), steps, s, step);
  }

  // ---- accounting ------------------------------------------------------------

  /** How many sent messages carry drain k. */
  ghost function Copies(sent: seq<Message>, k: nat): nat {
    if sent == [] then 0
    else
      var m := sent[|sent| - 1];
      Copies(sent[..|sent| - 1], k) + if m.BatchMsg? && m.drain == k then 1 else 0
  }

  /** Lines and drops the sent batches account for. */
  ghost function Delivered(sent: seq<Message>): nat {
    if sent == [] then 0
    else
      var m := sent[|sent| - 1];
      Delivered(sent[..|sent| - 1]) + if m.BatchMsg? then Size(m.batch) else 0
  }

  ghost function Ends(sent: seq<Message>): nat {
    if sent == [] then 0 else Ends(sent[..|sent| - 1]) + if sent[|sent| - 1].EndedMsg? then 1 else 0
  }

  lemma SentSnoc(sent: seq<Message>, m: Message)
    ensures forall k :: Copies(sent + [m], k) == Copies(sent, k) + if m.BatchMsg? && m.drain == k then 1 else 0
    ensures Delivered(sent + [m]) == Delivered(sent) + if m.BatchMsg? then Size(m.batch) else 0
  {
    assert (sent + [m])[..|sent|] == sent;
  }

  lemma EndsSnoc(sent: seq<Message>, m: Message)
    ensures Ends(sent + [m]) == Ends(sent) + if m.EndedMsg? then 1 else 0
  {
    assert (sent + [m])[..|sent|] == sent;
  }

  // ---- the countdown ----------------------------------------------------------

  /** A closing reader exists exactly when every reader has finished; it ends the stream
      once, after the buffer has been emptied. */
  ghost predicate CountdownInv(s: State) {
    && s.running <= WORD && s.remaining == (if s.running == WORD then 0 else s.running)
    && |s.closers| == (if s.running == 0 then 1 else 0)
    && Ends(s.sent) == (if s.running == 0 && s.closers[0] == Finished then 1 else 0)
    && (s.running == 0 && s.closers[0] != Draining ==> s.buffer == EMPTY)
  }

  lemma CloserCountdown(s: State, step: Step)
    requires CountdownInv(s) && Enabled(s, step)
    requires step.CloserDrains? || step.CloserSends? || step.CloserStops? || step.CloserEnds?
    ensures CountdownInv(Do(s, step))
  {
    assert step.who == 0 && s.running == 0;
    if step.CloserSends? {
      EndsSnoc(s.sent, BatchMsg(s.closers[0].drain, s.drains[s.closers[0].drain]));
    } else if step.CloserEnds? {
      EndsSnoc(s.sent, EndedMsg);
    }
  }

  lemma CountdownStep(s: State, step: Step)
    requires CountdownInv(s) && Enabled(s, step)
    ensures CountdownInv(Do(s, step))
  {
    if step.CloserDrains? || step.CloserSends? || step.CloserStops? || step.CloserEnds? {
      CloserCountdown(s, step);
    } else if step.FlusherSends? {
      EndsSnoc(s.sent, BatchMsg(s.flusher.drain, s.drains[s.flusher.drain]));
    }
  }

  // ---- the ledger: where every appended line is ---------------------------------

  /** What the accounting looks at: the buffer, the drains and who carries which. The flusher is
      holder 0, the closing readers follow. */
  datatype Ledger = Ledger(
    cap: nat, history: seq<string>, buffer: Batch, drains: seq<Batch>,
    holders: seq<Option<nat>>, sent: seq<Message>)

  ghost function HeldByFlusher(f: Flusher): Option<nat> { if f.Holding? then Some(f.drain) else None }

  ghost function HeldByCloser(c: Closer): Option<nat> { if c.Carrying? then Some(c.drain) else None }

  ghost function Holders(f: Flusher, closers: seq<Closer>): (h: seq<Option<nat>>)
    ensures |h| == |closers| + 1 && h[0] == HeldByFlusher(f)
    ensures forall w :: 0 <= w < |closers| ==> h[w + 1] == HeldByCloser(closers[w])
  {
    [HeldByFlusher(f)] + seq(|closers|, w requires 0 <= w < |closers| => HeldByCloser(closers[w]))
  }

  ghost function LedgerOf(s: State): Ledger {
    Ledger(s.cap, s.history, s.buffer, s.drains, Holders(s.flusher, s.closers), s.sent)
  }

  datatype Entry = NoEntry | Write(line: string) | Join | Drain(who: nat) | Send(who: nat) | End

  ghost predicate CanPost(l: Ledger, e: Entry) {
    match e
    case Drain(w) => w < |l.holders| && l.holders[w] == None
    case Send(w) => w < |l.holders| && l.holders[w].Some? && l.holders[w].value < |l.drains|
    case _ => true
  }

  ghost function Post(l: Ledger, e: Entry): Ledger
    requires CanPost(l, e)
  {
    match e
    case NoEntry => l
    case Write(line) => l.(buffer := Extended(l.buffer, l.cap, line), history := l.history + [line])
    case Join => l.(holders := l.holders + [None])
    case Drain(w) => l.(buffer := EMPTY, drains := l.drains + [l.buffer], holders := l.holders[w := Some(|l.drains|)])
    case Send(w) =>
      var k := l.holders[w].value;
      l.(sent := l.sent + [BatchMsg(k, l.drains[k])], holders := l.holders[w := None])
    case End => l.(sent := l.sent + [EndedMsg])
  }

  lemma HoldersMoved(f: Flusher, closers: seq<Closer>, w: nat, c: Closer)
    requires w < |closers|
    ensures var h := Holders(f, closers);
      && Holders(f, closers[w := c]) == h[w + 1 := HeldByCloser(c)]
      && (HeldByCloser(c) == HeldByCloser(closers[w]) ==> Holders(f, closers[w := c]) == h)
  {
    var h, t := Holders(f, closers), Holders(f, closers[w := c]);
    assert forall v :: 0 < v < |h| ==> t[v] == HeldByCloser(closers[w := c][v - 1]) && h[v] == HeldByCloser(closers[v - 1]);
    assert t == h[w + 1 := HeldByCloser(c)];
  }

  lemma CloserPosts(s: State, step: Step) returns (e: Entry)
    requires Enabled(s, step) && (step.CloserDrains? || step.CloserSends? || step.CloserStops? || step.CloserEnds?)
    ensures CanPost(LedgerOf(s), e) && LedgerOf(Do(s, step)) == Post(LedgerOf(s), e)
  {
    var w := step.who;
    HoldersMoved(s.flusher, s.closers, w, Do(s, step).closers[w]);
    match step
    case CloserDrains(_) => e := if s.buffer == EMPTY then NoEntry else Drain(w + 1);
    case CloserSends(_) => e := Send(w + 1);
    case CloserStops(_) => e := NoEntry;
    case CloserEnds(_) => e := End;
  }

  lemma FlusherPosts(s: State, step: Step) returns (e: Entry)
    requires Enabled(s, step) && (step.Tick? || step.FlusherSends? || step.FlusherExits?)
    ensures CanPost(LedgerOf(s), e) && LedgerOf(Do(s, step)) == Post(LedgerOf(s), e)
  {
    var h, t := Holders(s.flusher, s.closers), Holders(Do(s, step).flusher, s.closers);
    assert t == h[0 := HeldByFlusher(Do(s, step).flusher)] && h[0 := h[0]] == h;
    match step
    case Tick => e := if s.buffer == EMPTY then NoEntry else Drain(0);
    case FlusherSends => e := Send(0);
    case FlusherExits => e := NoEntry;
  }

  /** Every step of the protocol is one entry of the ledger, whatever the countdown says. */
  lemma StepPosts(s: State, step: Step) returns (e: Entry)
    requires Enabled(s, step)
    ensures CanPost(LedgerOf(s), e) && LedgerOf(Do(s, step)) == Post(LedgerOf(s), e)
  {
    if step.CloserDrains? || step.CloserSends? || step.CloserStops? || step.CloserEnds? {
      e := CloserPosts(s, step);
    } else if step.Tick? || step.FlusherSends? || step.FlusherExits? {
      e := FlusherPosts(s, step);
    } else if step.ReaderDone? && CountDown(s.remaining) == 0 {
      e := Join;
      assert Holders(s.flusher, s.closers + [Draining]) == Holders(s.flusher, s.closers) + [None];
    } else {
      e := if step.Append? then Write(step.line) else NoEntry;
    }
  }

  ghost function Holds(holder: Option<nat>, k: nat): nat { if holder == Some(k) then 1 else 0 }

  /** How many holders carry drain k. */
  ghost function Carriers(holders: seq<Option<nat>>, k: nat): nat {
    if holders == [] then 0 else Holds(holders[0], k) + Carriers(holders[1..], k)
  }

  /** How many places hold or have sent drain k. */
  ghost function Places(l: Ledger, k: nat): nat { Copies(l.sent, k) + Carriers(l.holders, k) }

  ghost function Load(drains: seq<Batch>, holder: Option<nat>): nat {
    if holder.Some? && holder.value < |drains| then Size(drains[holder.value]) else 0
  }

  ghost function Loads(drains: seq<Batch>, holders: seq<Option<nat>>): nat {
    if holders == [] then 0 else Load(drains, holders[0]) + Loads(drains, holders[1..])
  }

  /** Lines and drops between drain and send. */
  ghost function InFlight(s: State): nat { Loads(s.drains, Holders(s.flusher, s.closers)) }

  lemma {:induction false} CarriersUpdate(holders: seq<Option<nat>>, w: nat, h: Option<nat>, k: nat)
    requires w < |holders|
    ensures Carriers(holders[w := h], k) + Holds(holders[w], k) == Carriers(holders, k) + Holds(h, k)
  {
    if w > 0 {
      CarriersUpdate(holders[1..], w - 1, h, k);
      assert holders[w := h][1..] == holders[1..][w - 1 := h];
    } else {
      assert holders[0 := h][1..] == holders[1..];
    }
  }

  lemma {:induction false} LoadsUpdate(drains: seq<Batch>, holders: seq<Option<nat>>, w: nat, h: Option<nat>)
    requires w < |holders|
    ensures Loads(drains, holders[w := h]) + Load(drains, holders[w]) == Loads(drains, holders) + Load(drains, h)
  {
    if w > 0 {
      LoadsUpdate(drains, holders[1..], w - 1, h);
      assert holders[w := h][1..] == holders[1..][w - 1 := h];
    } else {
      assert holders[0 := h][1..] == holders[1..];
    }
  }

  lemma {:induction false} NoneAdded(drains: seq<Batch>, holders: seq<Option<nat>>, k: nat)
    ensures Carriers(holders + [None], k) == Carriers(holders, k)
    ensures Loads(drains, holders + [None]) == Loads(drains, holders)
  {
    if holders == [] {
      var one: seq<Option<nat>> := [None];
      assert holders + one == one && one[1..] == [];
    } else {
      Uncons(holders, [None]);
      NoneAdded(drains, holders[1..], k);
    }
  }

  ghost predicate Within(holders: seq<Option<nat>>, n: nat) {
    forall w :: 0 <= w < |holders| && holders[w].Some? ==> holders[w].value < n
  }

  lemma {:induction false} LoadsGrow(drains: seq<Batch>, b: Batch, holders: seq<Option<nat>>)
    requires Within(holders, |drains|)
    ensures Loads(drains + [b], holders) == Loads(drains, holders)
  {
    if holders != [] {
      LoadsGrow(drains, b, holders[1..]);
    }
  }

  /** Every drain is tight, and drains plus buffer account for the whole history. */
  ghost predicate HistoryInv(l: Ledger) {
    && Tight(l.buffer, l.cap) && (forall k :: 0 <= k < |l.drains| ==> Tight(l.drains[k], l.cap))
    && Covers(l.drains + [l.buffer], l.history)
  }

  ghost predicate IsCopy(m: Message, drains: seq<Batch>) {
    m.BatchMsg? ==> m.drain < |drains| && m.batch == drains[m.drain]
  }

  /** Batches are sent unaltered. */
  ghost predicate SentInv(l: Ledger) {
    Within(l.holders, |l.drains|) && forall i :: 0 <= i < |l.sent| ==> IsCopy(l.sent[i], l.drains)
  }

  /** Every drain is in flight once or sent once. */
  ghost predicate TagsInv(l: Ledger) {
    forall k: nat :: Places(l, k) == if k < |l.drains| then 1 else 0
  }

  ghost predicate MassInv(l: Ledger) {
    Delivered(l.sent) + Loads(l.drains, l.holders) + Size(l.buffer) == |l.history|
  }

  ghost predicate LedgerInv(l: Ledger) { HistoryInv(l) && SentInv(l) && TagsInv(l) && MassInv(l) }

  lemma HistoryPost(l: Ledger, e: Entry)
    requires HistoryInv(l) && CanPost(l, e)
    ensures HistoryInv(Post(l, e))
  {
    match e
    case Write(line) =>
      ExtendedIsTight(l.buffer, l.cap, line);
      CoversAppend(l.drains, l.buffer, l.cap, l.history, line);
    case Drain(_) => CoversDrain(l.drains + [l.buffer], l.history);
    case _ =>
  }

  lemma SentPost(l: Ledger, e: Entry)
    requires SentInv(l) && CanPost(l, e)
    ensures SentInv(Post(l, e))
  {
    var t := Post(l, e);
    assert forall i :: 0 <= i < |l.sent| ==> t.sent[i] == l.sent[i];
    assert forall k :: 0 <= k < |l.drains| ==> t.drains[k] == l.drains[k];
  }

  lemma PlacesPost(l: Ledger, e: Entry, k: nat)
    requires TagsInv(l) && CanPost(l, e)
    ensures Places(Post(l, e), k) == if k < |Post(l, e).drains| then 1 else 0
  {
    assert Places(l, k) == if k < |l.drains| then 1 else 0;
    match e
    case Join => NoneAdded(l.drains, l.holders, k);
    case Drain(w) => CarriersUpdate(l.holders, w, Some(|l.drains|), k);
    case Send(w) =>
      CarriersUpdate(l.holders, w, None, k);
      SentSnoc(l.sent, BatchMsg(l.holders[w].value, l.drains[l.holders[w].value]));
    case End => SentSnoc(l.sent, EndedMsg);
    case _ =>
  }

  lemma TagsPost(l: Ledger, e: Entry)
    requires TagsInv(l) && CanPost(l, e)
    ensures TagsInv(Post(l, e))
  {
    forall k: nat ensures Places(Post(l, e), k) == if k < |Post(l, e).drains| then 1 else 0 {
      PlacesPost(l, e, k);
    }
  }

  lemma MassPost(l: Ledger, e: Entry)
    requires HistoryInv(l) && SentInv(l) && MassInv(l) && CanPost(l, e)
    ensures MassInv(Post(l, e))
  {
    match e
    case Write(line) => ExtendedIsTight(l.buffer, l.cap, line);
    case Join => NoneAdded(l.drains, l.holders, 0);
    case Drain(w) =>
      LoadsGrow(l.drains, l.buffer, l.holders);
      LoadsUpdate(l.drains + [l.buffer], l.holders, w, Some(|l.drains|));
    case Send(w) =>
      LoadsUpdate(l.drains, l.holders, w, None);
      SentSnoc(l.sent, BatchMsg(l.holders[w].value, l.drains[l.holders[w].value]));
    case End => SentSnoc(l.sent, EndedMsg);
    case _ =>
  }

  // ---- every run ----------------------------------------------------------------

  lemma StepLedger(s: State, step: Step)
    requires LedgerInv(LedgerOf(s)) && Enabled(s, step)
    ensures LedgerInv(LedgerOf(Do(s, step)))
  {
    var e := StepPosts(s, step);
    var l := LedgerOf(s);
    HistoryPost(l, e);
    SentPost(l, e);
    TagsPost(l, e);
    MassPost(l, e);
  }

  lemma StartLedger(n: nat, cap: nat)
    ensures LedgerInv(LedgerOf(Start(n, cap)))
  {
    var l := LedgerOf(Start(n, cap));
    assert forall w :: 0 <= w < |l.holders| ==> l.holders[w] == None;
    NobodyHolds(l.holders, 0);
    forall k: nat ensures Places(l, k) == 0 {
      NobodyHolds(l.holders, k);
    }
    assert l.drains + [l.buffer] == [EMPTY] && [EMPTY][..0] == [];
    assert HistoryInv(l);
  }

  lemma {:induction false} NobodyHolds(holders: seq<Option<nat>>, k: nat)
    requires forall w :: 0 <= w < |holders| ==> holders[w] == None
    ensures Carriers(holders, k) == 0 && Loads([], holders) == 0
  {
    if holders != [] {
      NobodyHolds(holders[1..], k);
    }
  }

  lemma {:induction false} RunLedger(s: State, steps: seq<Step>, t: State)
    requires LedgerInv(LedgerOf(s)) && Leads(s, steps, t)
    ensures LedgerInv(LedgerOf(t))
    decreases |steps|
  {
    if steps != [] {
      StepLedger(s, steps[0]);
      RunLedger(Do(s, steps[0]), steps[1..], t);
    }
  }

  lemma {:induction false} RunCountdown(s: State, steps: seq<Step>, t: State)
    requires CountdownInv(s) && Leads(s, steps, t)
    ensures CountdownInv(t)
    decreases |steps|
  {
    if steps != [] {
      CountdownStep(s, steps[0]);
      RunCountdown(Do(s, steps[0]), steps[1..], t);
    }
  }

  /** The ledger balances in every run, of any number of readers. */
  lemma ReachableLedger(n: nat, cap: nat, s: State)
    requires Reachable(n, cap, s)
    ensures LedgerInv(LedgerOf(s))
  {
    var steps :| Leads(Start(n, cap), steps, s);
    StartLedger(n, cap);
    RunLedger(Start(n, cap), steps, s);
  }

  /** The countdown is right in every run of up to 2^32 readers. */
  lemma ReachableCountdown(n: nat, cap: nat, s: State)
    requires n <= WORD && Reachable(n, cap, s)
    ensures CountdownInv(s)
  {
    var steps :| Leads(Start(n, cap), steps, s);
    RunCountdown(Start(n, cap), steps, s);
  }

  // ---- the theorems -----------------------------------------------------------

  /** Conservation in every interleaving: appended lines are delivered, in flight, pending,
      or counted as dropped; pending is the tail of what came since the last drain; the
      drained batches in drain order are a subsequence of the append order. */
  lemma LogConservation(n: nat, cap: nat, s: State)
    requires Reachable(n, cap, s)
    ensures |s.history| == Delivered(s.sent) + InFlight(s) + |s.buffer.lines| + s.buffer.dropped
    ensures Tight(s.buffer, s.cap) && s.buffer.lines == s.history[|s.history| - |s.buffer.lines|..]
    ensures IsSubsequence(Flatten(s.drains + [s.buffer]), s.history)
  {
    ReachableLedger(n, cap, s);
    CoversSubsequence(s.drains + [s.buffer], s.history);
  }

  /** The stretch of the history a batch message delivers. */
  ghost function Window(s: State, k: nat): (nat, nat)
    requires k < |s.drains|
  {
    var all := s.drains + [s.buffer];
    (StartOf(all, k), StartOf(all, k) + |all[k].lines|)
  }

  lemma {:induction false} WindowsInOrder(s: State, j: nat, k: nat)
    requires j < k < |s.drains|
    ensures Window(s, j).1 <= Window(s, k).0
    decreases k
  {
    if j < k - 1 {
      WindowsInOrder(s, j, k - 1);
    }
  }

  lemma {:induction false} TwoCopies(sent: seq<Message>, i: nat, j: nat)
    requires i < j < |sent| && sent[i].BatchMsg? && sent[j].BatchMsg? && sent[i].drain == sent[j].drain
    ensures Copies(sent, sent[i].drain) >= 2
  {
    var init := sent[..|sent| - 1];
    if j < |init| {
      TwoCopies(init, i, j);
    } else {
      OneCopy(init, i);
    }
  }

  lemma {:induction false} OneCopy(sent: seq<Message>, i: nat)
    requires i < |sent| && sent[i].BatchMsg?
    ensures Copies(sent, sent[i].drain) >= 1
  {
    if i < |sent| - 1 {
      OneCopy(sent[..|sent| - 1], i);
    }
  }

  lemma DistinctDrains(l: Ledger, i: nat, j: nat)
    requires TagsInv(l) && i < j < |l.sent| && l.sent[i].BatchMsg? && l.sent[j].BatchMsg?
    ensures l.sent[i].drain != l.sent[j].drain
  {
    assert Places(l, l.sent[i].drain) <= 1;
    if l.sent[i].drain == l.sent[j].drain {
      TwoCopies(l.sent, i, j);
    }
  }

  /** A batch message delivers exactly the text appended in its window. */
  lemma MessageText(s: State, i: nat)
    requires HistoryInv(LedgerOf(s)) && SentInv(LedgerOf(s)) && i < |s.sent| && s.sent[i].BatchMsg?
    ensures s.sent[i].drain < |s.drains|
    ensures var (a, b) := Window(s, s.sent[i].drain);
            a <= b <= |s.history| && s.sent[i].batch.lines == s.history[a..b]
  {
    var l := LedgerOf(s);
    assert IsCopy(l.sent[i], l.drains);
    CoversWindows(s.drains + [s.buffer], s.history, s.sent[i].drain);
  }

  /** No appended line is delivered twice: two batch messages always deliver disjoint
      stretches of the history, each the exact text that was appended there. */
  lemma NoLineTwice(n: nat, cap: nat, s: State, i: nat, j: nat)
    requires Reachable(n, cap, s)
    requires i < j < |s.sent| && s.sent[i].BatchMsg? && s.sent[j].BatchMsg?
    ensures s.sent[i].drain < |s.drains| && s.sent[j].drain < |s.drains|
    ensures var (a, b), (c, d) := Window(s, s.sent[i].drain), Window(s, s.sent[j].drain);
            && a <= b <= |s.history| && c <= d <= |s.history| && (b <= c || d <= a)
            && s.sent[i].batch.lines == s.history[a..b] && s.sent[j].batch.lines == s.history[c..d]
  {
    ReachableLedger(n, cap, s);
    DistinctDrains(LedgerOf(s), i, j);
    MessageText(s, i);
    MessageText(s, j);
    if s.sent[i].drain < s.sent[j].drain {
      WindowsInOrder(s, s.sent[i].drain, s.sent[j].drain);
    } else {
      WindowsInOrder(s, s.sent[j].drain, s.sent[i].drain);
    }
  }

  /** The merged stream ends at most once, only after every reader has finished, and from
      then on the buffer is empty; when the closing reader is through, it has ended. */
  lemma EndsExactlyOnce(n: nat, cap: nat, s: State)
    requires n <= WORD && Reachable(n, cap, s)
    ensures Ends(s.sent) <= 1
    ensures Ends(s.sent) == 1 ==> s.running == 0 && s.buffer == EMPTY
    ensures Ends(s.sent) == 1 ==> |s.history| == Delivered(s.sent) + InFlight(s)
    ensures s.running == 0 ==> |s.closers| == 1 && (s.closers[0] == Finished <==> Ends(s.sent) == 1)
  {
    ReachableLedger(n, cap, s);
    ReachableCountdown(n, cap, s);
  }

  // ---- what each party does -------------------------------------------------------------

  /** A reader's line is appended, and nothing is sent. */
  lemma ReaderAppends(s: State, line: string)
    requires Enabled(s, Append(line))
    ensures var t := Do(s, Append(line));
            && t.history == s.history + [line] && t.sent == s.sent && t.drains == s.drains && t.running == s.running
            && (s.cap > 0 ==> t.buffer.lines != [] && t.buffer.lines[|t.buffer.lines| - 1] == line)
  {
  }

  /** A tick takes everything that is pending, and what it took is sent whole. */
  lemma TickFlushes(s: State)
    requires s.flusher == Waiting && s.buffer != EMPTY
    ensures Enabled(s, Tick) && Enabled(Do(s, Tick), FlusherSends)
    ensures var t := Do(Do(s, Tick), FlusherSends);
            t.buffer == EMPTY && t.sent == s.sent + [BatchMsg(|s.drains|, s.buffer)] && t.flusher == Waiting
  {
    assert (s.drains + [s.buffer])[|s.drains|] == s.buffer;
  }

  /** The reader that counts down to zero flushes what is pending, stops the flusher and ends the
      stream, in that order. */
  lemma CloserCloses(s: State, who: nat)
    requires At(s, who, Draining) && s.buffer != EMPTY
    ensures var a := Do(s, CloserDrains(who));
            && a.buffer == EMPTY && Enabled(a, CloserSends(who))
            && var b := Do(a, CloserSends(who));
            && b.sent == s.sent + [BatchMsg(|s.drains|, s.buffer)] && Enabled(b, CloserStops(who))
            && var c := Do(b, CloserStops(who));
            && c.stopped && c.sent == b.sent && Enabled(c, CloserEnds(who))
            && Do(c, CloserEnds(who)).sent == b.sent + [EndedMsg]
  {
    assert (s.drains + [s.buffer])[|s.drains|] == s.buffer;
  }

  lemma CloserClosesEmpty(s: State, who: nat)
    requires At(s, who, Draining) && s.buffer == EMPTY
    ensures var a := Do(s, CloserDrains(who));
            && a.sent == s.sent && Enabled(a, CloserStops(who))
            && var c := Do(a, CloserStops(who));
            && c.stopped && c.sent == s.sent && Enabled(c, CloserEnds(who))
            && Do(c, CloserEnds(who)).sent == s.sent + [EndedMsg]
  {
  }

  /** A reader that finishes counts down by one, and closes exactly when that is zero. */
  lemma ReaderFinishes(s: State)
    requires s.running > 0
    ensures var t := Do(s, ReaderDone);
            && t.running == s.running - 1 && t.sent == s.sent && t.buffer == s.buffer
            && (s.remaining > 0 ==> t.remaining == s.remaining - 1)
            && t.closers == if t.remaining == 0 then s.closers + [Draining] else s.closers
  {
  }

  // ---- the exact range of the 32-bit countdown ---------------------------------

  /** How many readers finish before the counter first reads zero. */
  ghost function Period(n: nat): nat { if n % WORD == 0 then WORD else n % WORD }

  /** Where the group stands after its first j readers have finished, before any other step. */
  ghost function Finishing(n: nat, cap: nat, j: nat): State
    requires j < Period(n) <= n
  {
    Start(n, cap).(running := n - j, remaining := if j == 0 then n % WORD else Period(n) - j)
  }

  lemma {:induction false} ReachFinishing(n: nat, cap: nat, j: nat)
    requires j < Period(n) <= n
    ensures Reachable(n, cap, Finishing(n, cap, j))
  {
    if j == 0 {
      assert Leads(Start(n, cap), [], Start(n, cap));
    } else {
      ReachFinishing(n, cap, j - 1);
      ReachStep(n, cap, Finishing(n, cap, j - 1), ReaderDone);
    }
  }

  /** Past 2^32 readers the countdown wraps, and some run ends with readers still going. */
  lemma WrappedCountdownEndsEarly(n: nat, cap: nat)
    requires n > WORD
    ensures exists s :: Reachable(n, cap, s) && Ends(s.sent) == 1 && s.running > 0
  {
    ReachFinishing(n, cap, Period(n) - 1);
    var s0 := Finishing(n, cap, Period(n) - 1);
    assert s0.remaining == 1 && s0.closers == [];
    var s1 := Do(s0, ReaderDone);
    ReachStep(n, cap, s0, ReaderDone);
    assert s1 == s0.(running := n - Period(n), remaining := 0, closers := [Draining]);
    CloseUp(n, cap, s1);
  }

  /** From there the closing reader can walk to its end. */
  lemma CloseUp(n: nat, cap: nat, s: State)
    requires Reachable(n, cap, s) && s.closers == [Draining] && s.buffer == EMPTY && s.sent == []
    ensures exists t :: Reachable(n, cap, t) && Ends(t.sent) == 1 && t.running == s.running
  {
    var s2 := s.(closers := [Stopping]);
    ReachStep(n, cap, s, CloserDrains(0));
    assert Do(s, CloserDrains(0)) == s2;
    var s3 := s.(closers := [Ending], stopped := true);
    ReachStep(n, cap, s2, CloserStops(0));
    assert Do(s2, CloserStops(0)) == s3;
    var s4 := s.(closers := [Finished], stopped := true, sent := [EndedMsg]);
    ReachStep(n, cap, s3, CloserEnds(0));
    assert Do(s3, CloserEnds(0)) == s4;
    EndsSnoc([], EndedMsg);
    assert s4.sent == [] + [EndedMsg];
  }

  /** The end message waits for every reader in every run exactly up to 2^32 readers. */
  lemma EndWaitsForReaders(n: nat, cap: nat)
    ensures (forall s :: Reachable(n, cap, s) && Ends(s.sent) >= 1 ==> s.running == 0) <==> n <= WORD
  {
    if n <= WORD {
      forall s | Reachable(n, cap, s) && Ends(s.sent) >= 1 ensures s.running == 0 {
        ReachableCountdown(n, cap, s);
      }
    } else {
      WrappedCountdownEndsEarly(n, cap);
    }
  }

  // ---- the group object, one call at a time -------------------------------------

  datatype Output = Lines(batch: Batch) | LogEnded

  class Group {
    const buf: Buffer
    var remaining: nat
    var stopFlush: bool
    var sink: seq<Output>

    /** StartGroupWithOptions; the readers and the flusher are the steps above. */
    constructor (pods: nat)
      ensures fresh(buf) && buf.cap == DEFAULT_CAP && buf.Held() == EMPTY
      ensures remaining == pods % WORD
      ensures stopFlush == (pods == 0)
      ensures sink == if pods == 0 then [LogEnded] else []
    {
      buf := new Buffer(DEFAULT_CAP);
      remaining := pods % WORD;
      stopFlush := false;
      sink := [];
      new;
      if pods == 0 {
        StopFlushing();
        sink := sink + [LogEnded];
      }
    }

    method StopFlushing()
      modifies this
      ensures stopFlush && remaining == old(remaining) && sink == old(sink)
    {
      stopFlush := true;
    }

    method FlushNow()
      modifies this, buf
      ensures buf.Held() == EMPTY && remaining == old(remaining) && stopFlush == old(stopFlush)
      ensures sink == old(sink) + if old(buf.Held()) == EMPTY then [] else [Lines(old(buf.Held()))]
    {
      var lines, dropped := buf.Drain();
      if |lines| == 0 && dropped == 0 {
        return;
      }
      sink := sink + [Lines(Batch(lines, dropped))];
    }

    /** Run without interruption: the last reader flushes, stops the flusher and ends the
        stream; any other reader only counts down. */
    method ReaderDone()
      modifies this, buf
      ensures remaining == CountDown(old(remaining))
      ensures remaining != 0 ==>
                buf.Held() == old(buf.Held()) && stopFlush == old(stopFlush) && sink == old(sink)
      ensures remaining == 0 ==>
                && buf.Held() == EMPTY && stopFlush
                && sink == old(sink) + (if old(buf.Held()) == EMPTY then [] else [Lines(old(buf.Held()))]) + [LogEnded]
    {
      remaining := CountDown(remaining);
      if remaining != 0 {
        return;
      }
      FlushNow();
      StopFlushing();
      sink := sink + [LogEnded];
    }
  }
}
