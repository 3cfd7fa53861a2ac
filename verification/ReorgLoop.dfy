/**
 * The protocol between scheduleReorgLoop, the background runs it starts and the callers of
 * requestReset, requestPromoteExecutables and queueTxEvent, as a state machine. A step is what one
 * goroutine does between two points where it may be interrupted; a run is any sequence of steps.
 */
module ReorgLoops {
  import opened Wrappers
  import opened TxLists

  type Channel = nat
  type Head = nat

  datatype Request = Reset(oldHead: Head, newHead: Head) | Promote(accounts: set<Address>)

  datatype Heads = Heads(oldHead: Head, newHead: Head)

  /** What the loop has collected for its next run. */
  datatype Batch = Batch(reset: Option<Heads>, dirty: Option<set<Address>>, events: map<Address, map<nat, Tx>>)

  const NOTHING := Batch(None, None, map[])

  datatype Note = Asked(req: Request) | Queued(tx: Tx)

  /** The loop took a note while ch was the channel of its next run. */
  datatype Entry = Entry(ch: Channel, note: Note)

  datatype Run = Run(done: Channel, batch: Batch)

  /** A caller offers its request, waits for a channel, and holds it; or is turned away at shutdown. */
  datatype Client =
    | Asking(req: Request)
    | Waiting(req: Request)
    | Holding(req: Request, ch: Channel)
    | Refused(req: Request)

  /** Where the loop is: before the launch test, in the select, handing out a channel, waiting to end. */
  datatype Pc = Top | Select | Reply | Draining | Stopped

  datatype State = State(
    pc: Pc,
    curDone: Option<Channel>,
    nextDone: Channel,
    launch: bool,
    batch: Batch,
    active: seq<Run>,
    finished: map<Channel, Run>,
    closed: multiset<Channel>,
    log: seq<Entry>,
    clients: map<nat, Client>,
    shutdown: bool)

  const START := State(Top, None, 0, false, NOTHING, [], map[], multiset{}, [], map[], false)

  datatype Step =
    | Call(client: nat, req: Request)
    | Test
    | Receive(client: nat)
    | Answer(client: nat)
    | TakeEvent(tx: Tx)
    | NoteDone
    | Finish(run: nat)
    | Shutdown
    | Refuse(client: nat)
    | BeginEnd
    | End

  function Merge(b: Batch, note: Note): Batch {
    match note
    case Asked(Reset(o, n)) =>
      b.(reset := Some(if b.reset.None? then Heads(o, n) else b.reset.value.(newHead := n)))
    case Asked(Promote(accounts)) =>
      b.(dirty := Some(if b.dirty.None? then accounts else b.dirty.value + accounts))
    case Queued(tx) =>
      var queued := if tx.sender in b.events then b.events[tx.sender] else map[];
      b.(events := b.events[tx.sender := queued[tx.nonce := tx]])
  }

  /** A step can be taken: the goroutine is there and the channels it uses are ready. */
  predicate Enabled(s: State, step: Step) {
    match step
    case Call(c, _) => c !in s.clients
    case Test => s.pc == Top
    case Receive(c) => s.pc == Select && c in s.clients && s.clients[c].Asking?
    case Answer(c) => s.pc == Reply && c in s.clients && s.clients[c].Waiting?
    case TakeEvent(_) => s.pc == Select
    case NoteDone => s.pc == Select && s.curDone.Some? && s.curDone.value in s.closed
    case Finish(i) => i < |s.active|
    case Shutdown => true
    case Refuse(c) => s.shutdown && c in s.clients && s.clients[c].Asking?
    case BeginEnd => s.pc == Select && s.shutdown
    case End => s.pc == Draining && (s.curDone.None? || s.curDone.value in s.closed)
  }

  /** The launch at the head of the loop. */
  function Launch(s: State): State {
    s.(pc := Select, active := s.active + [Run(s.nextDone, s.batch)], curDone := Some(s.nextDone),
       nextDone := s.nextDone + 1, launch := false, batch := NOTHING)
  }

  function TakeNote(s: State, note: Note): State {
    s.(batch := Merge(s.batch, note), log := s.log + [Entry(s.nextDone, note)])
  }

  function Apply(s: State, step: Step): (t: State)
    requires Enabled(s, step)
  {
    match step
    case Call(c, req) => s.(clients := s.clients[c := Asking(req)])
    case Test => if s.curDone.None? && s.launch then Launch(s) else s.(pc := Select)
    case Receive(c) =>
      var req := s.clients[c].req;
      TakeNote(s, Asked(req)).(pc := Reply, launch := true, clients := s.clients[c := Waiting(req)])
    case Answer(c) => s.(pc := Top, clients := s.clients[c := Holding(s.clients[c].req, s.nextDone)])
    case TakeEvent(tx) => TakeNote(s, Queued(tx)).(pc := Top)
    case NoteDone => s.(pc := Top, curDone := None)
    case Finish(i) =>
      var run := s.active[i];
      s.(active := s.active[..i] + s.active[i + 1..], finished := s.finished[run.done := run],
         closed := s.closed + multiset{run.done})
    case Shutdown => s.(shutdown := true)
    case Refuse(c) => s.(clients := s.clients[c := Refused(s.clients[c].req)])
    case BeginEnd => s.(pc := Draining)
    case End => s.(pc := Stopped, closed := s.closed + multiset{s.nextDone})
  }

  ghost predicate Legal(s: State, steps: seq<Step>)
    decreases |steps|
  {
    steps == [] || (Enabled(s, steps[0]) && Legal(Apply(s, steps[0]), steps[1..]))
  }

  ghost function After(s: State, steps: seq<Step>): State
    requires Legal(s, steps)
    decreases |steps|
  {
    if steps == [] then s else After(Apply(s, steps[0]), steps[1..])
  }

  /** What the notes taken for ch among the first n amount to. */
  function Gather(log: seq<Entry>, ch: Channel, n: nat): Batch
    requires n <= |log|
  {
    if n == 0 then NOTHING
    else if log[n - 1].ch == ch then Merge(Gather(log, ch, n - 1), log[n - 1].note)
    else Gather(log, ch, n - 1)
  }

  ghost predicate IsReset(e: Entry, ch: Channel) {
    e.ch == ch && e.note.Asked? && e.note.req.Reset?
  }

  ghost predicate IsPromote(e: Entry, ch: Channel) {
    e.ch == ch && e.note.Asked? && e.note.req.Promote?
  }

  /** The resets asked for ch are merged under the first old head and the last new head. */
  ghost predicate Spans(log: seq<Entry>, ch: Channel, n: nat, h: Heads)
    requires n <= |log|
  {
    exists i, j ::
      && 0 <= i <= j < n && IsReset(log[i], ch) && IsReset(log[j], ch)
      && h == Heads(log[i].note.req.oldHead, log[j].note.req.newHead)
      && (forall k :: 0 <= k < n && IsReset(log[k], ch) ==> i <= k <= j)
  }

  lemma SpansFirst(log: seq<Entry>, ch: Channel, n: nat)
    requires n < |log| && IsReset(log[n], ch) && NoReset(log, ch, n)
    ensures Spans(log, ch, n + 1, Heads(log[n].note.req.oldHead, log[n].note.req.newHead))
  {
  }

  lemma SpansLater(log: seq<Entry>, ch: Channel, n: nat, h: Heads)
    requires n < |log| && Spans(log, ch, n, h)
    ensures Spans(log, ch, n + 1, if IsReset(log[n], ch) then h.(newHead := log[n].note.req.newHead) else h)
  {
    var i, j :|
      && 0 <= i <= j < n && IsReset(log[i], ch) && IsReset(log[j], ch)
      && h == Heads(log[i].note.req.oldHead, log[j].note.req.newHead)
      && (forall k :: 0 <= k < n && IsReset(log[k], ch) ==> i <= k <= j);
    var last := if IsReset(log[n], ch) then n else j;
    assert IsReset(log[last], ch) && forall k :: 0 <= k < n + 1 && IsReset(log[k], ch) ==> i <= k <= last;
  }

  lemma GatherResetStep(log: seq<Entry>, ch: Channel, n: nat)
    requires n < |log|
    ensures var r, r', e := Gather(log, ch, n).reset, Gather(log, ch, n + 1).reset, log[n];
            r' == if !IsReset(e, ch) then r
                  else if r.None? then Some(Heads(e.note.req.oldHead, e.note.req.newHead))
                  else Some(r.value.(newHead := e.note.req.newHead))
  {
  }

  ghost predicate NoReset(log: seq<Entry>, ch: Channel, n: nat)
    requires n <= |log|
  {
    forall k :: 0 <= k < n ==> !IsReset(log[k], ch)
  }

  lemma NoResetStep(log: seq<Entry>, ch: Channel, n: nat)
    requires n < |log|
    ensures NoReset(log, ch, n + 1) <==> NoReset(log, ch, n) && !IsReset(log[n], ch)
  {
    hide IsReset;
  }

  lemma GatherNoReset(log: seq<Entry>, ch: Channel)
    ensures Gather(log, ch, 0).reset.None? && NoReset(log, ch, 0)
  {
  }

  lemma {:induction false} GatherReset(log: seq<Entry>, ch: Channel, n: nat)
    requires n <= |log|
    ensures var r := Gather(log, ch, n).reset;
            && (r.None? <==> NoReset(log, ch, n))
            && (r.Some? ==> Spans(log, ch, n, r.value))
  {
    hide Spans, Merge, Gather, IsReset, NoReset;
    if n == 0 {
      GatherNoReset(log, ch);
    } else {
      GatherReset(log, ch, n - 1);
      GatherResetStep(log, ch, n - 1);
      NoResetStep(log, ch, n - 1);
      var r := Gather(log, ch, n - 1).reset;
      if r.Some? {
        SpansLater(log, ch, n - 1, r.value);
      } else if IsReset(log[n - 1], ch) {
        SpansFirst(log, ch, n - 1);
      }
    }
  }

  /** The accounts collected for ch are exactly those of the promotions asked for it. */
  lemma {:induction false} GatherDirty(log: seq<Entry>, ch: Channel, n: nat)
    requires n <= |log|
    ensures var d := Gather(log, ch, n).dirty;
            && (d.None? <==> forall k :: 0 <= k < n ==> !IsPromote(log[k], ch))
            && (d.Some? ==> forall a :: a in d.value <==>
                  exists k :: 0 <= k < n && IsPromote(log[k], ch) && a in log[k].note.req.accounts)
  {
    if n > 0 {
      GatherDirty(log, ch, n - 1);
    }
  }

  /** The events collected for ch: for every sender and nonce the last transaction queued. */
  lemma {:induction false} GatherEvents(log: seq<Entry>, ch: Channel, n: nat, k: nat)
    requires k < n <= |log| && log[k].ch == ch && log[k].note.Queued?
    requires forall j :: k < j < n && log[j].ch == ch && log[j].note.Queued? ==>
               log[j].note.tx.sender != log[k].note.tx.sender || log[j].note.tx.nonce != log[k].note.tx.nonce
    ensures var tx, events := log[k].note.tx, Gather(log, ch, n).events;
            tx.sender in events && tx.nonce in events[tx.sender] && events[tx.sender][tx.nonce] == tx
    decreases n
  {
    if k < n - 1 {
      GatherEvents(log, ch, n - 1, k);
    }
  }

  lemma {:induction false} GatherExtend(log: seq<Entry>, e: Entry, ch: Channel, n: nat)
    requires n <= |log|
    ensures Gather(log + [e], ch, n) == Gather(log, ch, n)
  {
    if n > 0 {
      GatherExtend(log, e, ch, n - 1);
    }
  }

  lemma {:induction false} GatherNone(log: seq<Entry>, ch: Channel, n: nat)
    requires n <= |log| && forall k :: 0 <= k < n ==> log[k].ch != ch
    ensures Gather(log, ch, n) == NOTHING
  {
    if n > 0 {
      GatherNone(log, ch, n - 1);
    }
  }

  ghost function Collected(s: State, ch: Channel): Batch {
    Gather(s.log, ch, |s.log|)
  }

  /** One run at a time, which is the one the loop waits for; every other channel handed on is closed. */
  ghost predicate RunsOk(s: State) {
    && |s.active| <= 1
    && (s.curDone.None? ==> s.active == [])
    && (s.curDone.Some? ==> s.curDone.value < s.nextDone)
    && (forall ch: Channel :: s.closed[ch] <= 1)
    && (forall ch: Channel :: ch < s.nextDone ==>
          (ch in s.closed <==> ch in s.finished) && (ch !in s.closed <==> s.active != [] && s.active[0].done == ch))
    && (s.active != [] ==> s.curDone == Some(s.active[0].done))
    && (forall ch: Channel :: ch > s.nextDone ==> ch !in s.closed)
    && (s.nextDone in s.closed <==> s.pc == Stopped)
    && (s.pc == Stopped ==> s.active == [])
    && (forall ch :: ch in s.finished ==> ch < s.nextDone && s.finished[ch].done == ch)
  }

  /** Every run works on exactly what was collected for its channel. */
  ghost predicate BatchesOk(s: State) {
    && s.batch == Collected(s, s.nextDone)
    && (forall r :: r in s.active ==> r.done < s.nextDone && r.batch == Collected(s, r.done))
    && (forall ch :: ch in s.finished ==> ch < s.nextDone && s.finished[ch].batch == Collected(s, ch))
  }

  /** A request taken for the next run makes it be launched, and in the select only another run delays it. */
  ghost predicate LogOk(s: State) {
    && (forall k :: 0 <= k < |s.log| ==> s.log[k].ch <= s.nextDone)
    && (forall k :: 0 <= k < |s.log| && s.log[k].ch == s.nextDone && s.log[k].note.Asked? ==> s.launch)
    && (s.pc == Select && s.launch ==> s.curDone.Some?)
    && (s.pc == Draining || s.pc == Stopped ==> s.shutdown)
  }

  /** A caller with a channel has its request noted for it, and only one caller awaits a channel. */
  ghost predicate ClientsOk(s: State) {
    && (forall c :: c in s.clients && s.clients[c].Holding? ==>
          Entry(s.clients[c].ch, Asked(s.clients[c].req)) in s.log && s.clients[c].ch <= s.nextDone)
    && (forall c :: c in s.clients && s.clients[c].Waiting? ==>
          s.pc == Reply && Entry(s.nextDone, Asked(s.clients[c].req)) in s.log)
    && (forall c, d :: c in s.clients && d in s.clients && s.clients[c].Waiting? && s.clients[d].Waiting? ==> c == d)
    && (s.pc == Reply ==> exists c :: c in s.clients && s.clients[c].Waiting?)
  }

  ghost predicate Inv(s: State) {
    RunsOk(s) && BatchesOk(s) && LogOk(s) && ClientsOk(s)
  }

  /** Only the clients, the notes and the place of the loop change. */
  ghost predicate SameRuns(s: State, t: State) {
    && t.active == s.active && t.finished == s.finished && t.closed == s.closed
    && t.nextDone == s.nextDone && t.curDone == s.curDone && (t.pc == Stopped <==> s.pc == Stopped)
  }

  lemma SameRunsOk(s: State, t: State)
    requires RunsOk(s) && SameRuns(s, t)
    ensures RunsOk(t)
  {
  }

  lemma LaunchRunsOk(s: State)
    requires RunsOk(s) && s.pc == Top && s.curDone.None?
    ensures RunsOk(Launch(s))
  {
    var t := Launch(s);
    assert t.active == [Run(s.nextDone, s.batch)];
    forall ch: Channel | ch < t.nextDone
      ensures (ch in t.closed <==> ch in t.finished) && (ch !in t.closed <==> t.active[0].done == ch)
    {
      assert ch < s.nextDone || ch == s.nextDone;
    }
  }

  lemma FinishRunsOk(s: State, i: nat)
    requires RunsOk(s) && Enabled(s, Finish(i))
    ensures RunsOk(Apply(s, Finish(i)))
  {
    var t := Apply(s, Finish(i));
    assert i == 0 && t.active == [];
  }

  lemma NoteDoneRunsOk(s: State)
    requires RunsOk(s) && Enabled(s, NoteDone)
    ensures RunsOk(Apply(s, NoteDone))
  {
    assert s.active == [];
  }

  lemma EndRunsOk(s: State)
    requires RunsOk(s) && Enabled(s, End)
    ensures RunsOk(Apply(s, End))
  {
    assert s.active == [];
  }

  lemma RunsKept(s: State, step: Step)
    requires RunsOk(s) && Enabled(s, step)
    ensures RunsOk(Apply(s, step))
  {
    hide RunsOk, Merge, Launch;
    match step
    case Test =>
      if s.curDone.None? && s.launch {
        LaunchRunsOk(s);
      } else {
        SameRunsOk(s, Apply(s, step));
      }
    case Finish(i) => FinishRunsOk(s, i);
    case NoteDone => NoteDoneRunsOk(s);
    case End => EndRunsOk(s);
    case _ => SameRunsOk(s, Apply(s, step));
  }

  lemma ClientsKept(s: State, step: Step)
    requires ClientsOk(s) && Enabled(s, step)
    ensures ClientsOk(Apply(s, step))
  {
    var t := Apply(s, step);
    if step.Receive? {
      assert t.clients[step.client].Waiting?;
    } else if s.pc == Reply && !step.Answer? {
      var c :| c in s.clients && s.clients[c].Waiting?;
      assert t.clients[c].Waiting?;
    }
  }

  /** What was collected for a channel the loop has left behind stays as it was. */
  lemma NoteElsewhere(s: State, note: Note, ch: Channel)
    requires ch != s.nextDone
    ensures Collected(TakeNote(s, note), ch) == Collected(s, ch)
  {
    GatherExtend(s.log, Entry(s.nextDone, note), ch, |s.log|);
  }

  lemma NoteHere(s: State, note: Note)
    ensures Collected(TakeNote(s, note), s.nextDone) == Merge(Collected(s, s.nextDone), note)
  {
    GatherExtend(s.log, Entry(s.nextDone, note), s.nextDone, |s.log|);
  }

  lemma NoteKept(s: State, note: Note)
    requires BatchesOk(s)
    ensures BatchesOk(TakeNote(s, note))
  {
    hide Merge, Gather;
    var t := TakeNote(s, note);
    NoteHere(s, note);
    forall r | r in t.active ensures r.done < t.nextDone && r.batch == Collected(t, r.done) {
      NoteElsewhere(s, note, r.done);
    }
    forall ch | ch in t.finished ensures ch < t.nextDone && t.finished[ch].batch == Collected(t, ch) {
      NoteElsewhere(s, note, ch);
    }
  }

  lemma SameBatchesOk(s: State, t: State)
    requires BatchesOk(s) && t.log == s.log && t.batch == s.batch && t.nextDone == s.nextDone
    requires t.active == s.active && t.finished == s.finished
    ensures BatchesOk(t)
  {
    hide Gather;
  }

  lemma LaunchBatchesOk(s: State)
    requires BatchesOk(s) && LogOk(s)
    ensures BatchesOk(Launch(s))
  {
    hide Gather;
    GatherNone(s.log, s.nextDone + 1, |s.log|);
  }

  lemma FinishBatchesOk(s: State, i: nat)
    requires BatchesOk(s) && Enabled(s, Finish(i))
    ensures BatchesOk(Apply(s, Finish(i)))
  {
    hide Gather;
    assert s.active[i] in s.active;
  }

  lemma BatchesKept(s: State, step: Step)
    requires BatchesOk(s) && LogOk(s) && Enabled(s, step)
    ensures BatchesOk(Apply(s, step))
  {
    hide BatchesOk, LogOk, Merge, Launch;
    match step
    case Receive(c) =>
      NoteKept(s, Asked(s.clients[c].req));
      SameBatchesOk(TakeNote(s, Asked(s.clients[c].req)), Apply(s, step));
    case TakeEvent(tx) =>
      NoteKept(s, Queued(tx));
      SameBatchesOk(TakeNote(s, Queued(tx)), Apply(s, step));
    case Test =>
      if s.curDone.None? && s.launch {
        LaunchBatchesOk(s);
      } else {
        SameBatchesOk(s, Apply(s, step));
      }
    case Finish(i) => FinishBatchesOk(s, i);
    case _ => SameBatchesOk(s, Apply(s, step));
  }

  lemma LogKept(s: State, step: Step)
    requires LogOk(s) && Enabled(s, step)
    ensures LogOk(Apply(s, step))
  {
  }

  lemma {:induction false} AlwaysInv(s: State, steps: seq<Step>)
    requires Inv(s) && Legal(s, steps)
    ensures Inv(After(s, steps))
    decreases |steps|
  {
    hide RunsOk, BatchesOk, LogOk, ClientsOk, Apply, Enabled;
    if steps != [] {
      RunsKept(s, steps[0]);
      BatchesKept(s, steps[0]);
      LogKept(s, steps[0]);
      ClientsKept(s, steps[0]);
      AlwaysInv(Apply(s, steps[0]), steps[1..]);
    }
  }

  lemma StartInv()
    ensures Inv(START)
  {
    assert START.batch == Collected(START, 0);
  }

  lemma Reachable(steps: seq<Step>)
    requires Legal(START, steps)
    ensures Inv(After(START, steps))
  {
    hide RunsOk, BatchesOk, LogOk, ClientsOk;
    StartInv();
    AlwaysInv(START, steps);
  }

  /** In every interleaving at most one run is active and no channel is closed twice. */
  lemma OneRunOneClose(steps: seq<Step>, ch: Channel)
    requires Legal(START, steps)
    ensures |After(START, steps).active| <= 1
    ensures After(START, steps).closed[ch] <= 1
  {
    Reachable(steps);
    hide BatchesOk, LogOk, ClientsOk, After, Legal;
  }

  /** The accounts that runReorg checks for promotion, given those with queued transactions. */
  function Promoted(b: Batch, queue: set<Address>): set<Address> {
    if b.reset.Some? then queue else if b.dirty.Some? then b.dirty.value else {}
  }

  /** The run does what the request asked for on ch. */
  ghost predicate Covers(s: State, run: Run, req: Request) {
    match req
    case Promote(accounts) => forall queue: set<Address> :: accounts * queue <= Promoted(run.batch, queue)
    case Reset(o, n) =>
      && run.batch.reset.Some?
      && Spans(s.log, run.done, |s.log|, run.batch.reset.value)
      && exists k :: 0 <= k < |s.log| && s.log[k] == Entry(run.done, Asked(req))
  }

  lemma CollectedCovers(s: State, run: Run, req: Request)
    requires run.batch == Collected(s, run.done) && Entry(run.done, Asked(req)) in s.log
    ensures Covers(s, run, req)
  {
    hide Gather, Spans;
    var k :| 0 <= k < |s.log| && s.log[k] == Entry(run.done, Asked(req));
    GatherReset(s.log, run.done, |s.log|);
    GatherDirty(s.log, run.done, |s.log|);
    match req
    case Promote(_) => assert IsPromote(s.log[k], run.done);
    case Reset(_, _) => assert IsReset(s.log[k], run.done);
  }

  /**
   * A caller's channel is closed only by the end of the loop after a shutdown, or by a finished run
   * that did what the caller asked: its accounts were checked, or its reset lies within the heads reset.
   */
  lemma ClosedMeansServed(steps: seq<Step>, c: nat)
    requires Legal(START, steps)
    requires var s := After(START, steps); c in s.clients && s.clients[c].Holding? && s.clients[c].ch in s.closed
    ensures var s := After(START, steps);
            var client := s.clients[c];
            || (s.shutdown && s.pc == Stopped && client.ch == s.nextDone)
            || (client.ch in s.finished && s.finished[client.ch].done == client.ch
                && Covers(s, s.finished[client.ch], client.req))
  {
    Reachable(steps);
    hide After, Legal, Covers, Gather;
    var s := After(START, steps);
    var client := s.clients[c];
    if client.ch < s.nextDone {
      CollectedCovers(s, s.finished[client.ch], client.req);
    }
  }

  /** Once the loop has ended, every channel it handed out is closed, once. */
  lemma StoppedClosesAll(steps: seq<Step>, c: nat)
    requires Legal(START, steps)
    requires var s := After(START, steps); s.pc == Stopped && c in s.clients && s.clients[c].Holding?
    ensures var s := After(START, steps); s.closed[s.clients[c].ch] == 1
  {
    Reachable(steps);
    hide After, Legal, Gather;
    var s := After(START, steps);
    assert s.clients[c].ch in s.closed;
  }

  function Rank(pc: Pc): nat {
    match pc
    case Reply => 2
    case Top => 1
    case _ => 0
  }

  /** The step that brings the closing of the loop's next channel nearer. */
  lemma NearerStep(s: State, ch: Channel) returns (step: Step)
    requires Inv(s) && ch !in s.closed && ch <= s.nextDone
    requires ch == s.nextDone ==> s.launch
    ensures Enabled(s, step)
    ensures var t := Apply(s, step);
            && ch <= t.nextDone && (ch == t.nextDone ==> t.launch)
            && (ch in t.closed || (ch < t.nextDone && ch == s.nextDone) || (ch == s.nextDone == t.nextDone &&
                (if s.curDone.Some? == t.curDone.Some? then
                   |t.active| < |s.active| || (|t.active| == |s.active| && Rank(t.pc) < Rank(s.pc))
                 else s.curDone.Some?)))
  {
    hide Gather, Merge;
    if s.active != [] && (ch < s.nextDone || s.pc == Select || s.pc == Draining) {
      step := Finish(0);
    } else {
      match s.pc
      case Top => step := Test;
      case Reply =>
        var c :| c in s.clients && s.clients[c].Waiting?;
        step := Answer(c);
      case Select => step := NoteDone;
      case Draining => step := End;
    }
  }

  /** The loop never gets stuck: from every reachable state some steps close the channel. */
  lemma {:induction false} CanClose(s: State, ch: Channel) returns (steps: seq<Step>)
    requires Inv(s) && ch <= s.nextDone && (ch == s.nextDone ==> s.launch || ch in s.closed)
    ensures Legal(s, steps) && ch in After(s, steps).closed
    decreases s.nextDone == ch, s.curDone.Some?, |s.active|, Rank(s.pc)
  {
    hide RunsOk, BatchesOk, LogOk, ClientsOk, Enabled, Apply, Rank;
    if ch in s.closed {
      steps := [];
    } else {
      var step := NearerStep(s, ch);
      RunsKept(s, step);
      BatchesKept(s, step);
      LogKept(s, step);
      ClientsKept(s, step);
      var rest := [];
      if ch !in Apply(s, step).closed {
        rest := CanClose(Apply(s, step), ch);
      }
      steps := [step] + rest;
      assert steps[1..] == rest;
    }
  }

  /** Whoever holds a channel can see it closed, whatever has happened so far. */
  lemma NoRequestIsLost(before: seq<Step>, c: nat) returns (steps: seq<Step>)
    requires Legal(START, before)
    requires var s := After(START, before); c in s.clients && s.clients[c].Holding?
    ensures var s := After(START, before);
            Legal(s, steps) && s.clients[c].ch in After(s, steps).closed
  {
    Reachable(before);
    var s := After(START, before);
    hide After, Legal, Gather, Apply, Enabled;
    var client := s.clients[c];
    var k :| 0 <= k < |s.log| && s.log[k] == Entry(client.ch, Asked(client.req));
    steps := CanClose(s, client.ch);
  }
}
