/** Whole runs of the assessment client: the order of slices, the progress made, the spacing of plan fetches. */
module Schedule {
  import opened Machine
  import opened Planning
  import opened Assessment

  // ------------------------------------------------------- an honest server

  /** The server sends the plan it once drew up; only the completion marks and the time stamp may have moved on. */
  predicate Echoes(p: Plan, q: Plan, done: set<nat>) {
    && q == p.(slices := q.slices, completedSliceCount := q.completedSliceCount, generatedEpochMs := q.generatedEpochMs)
    && |q.slices| == |p.slices|
    && (forall i :: 0 <= i < |p.slices| ==> q.slices[i] == p.slices[i].(completed := q.slices[i].completed))
    && (forall i :: 0 <= i < |q.slices| && q.slices[i].completed ==> q.slices[i].sliceIndex in done)
  }

  /**
   * An executed slice: its place in the plan, the clock reading that chose it, the end of the plan fetch between
   * that reading and the report, if there was one, and whether an accepting reply came back.
   */
  datatype Execution = Execution(position: nat, decided: U64, fetchEnd: Option<U64>, accepted: bool)

  /** When the execution really begins. */
  function Begins(e: Execution): U64 {
    if e.fetchEnd.Some? then e.fetchEnd.value else e.decided
  }

  /** How many slices of the plan an execution leaves behind. */
  function Reached(e: Execution): nat {
    e.position + if e.accepted then 1 else 0
  }

  /** The client, the slices the server holds as done, and all executions so far, refused and lost ones included. */
  datatype World = World(client: Client, done: set<nat>, executed: seq<Execution>)

  const START := World(INITIAL, {}, [])

  /** One tick, and the slices the server holds as done after it. */
  datatype Step = Step(tick: Tick, doneAfter: set<nat>)

  predicate Accepted(cfg: Config, c: Client, t: Tick) {
    && Executes(cfg, c, t) && t.reportReply.Ok?
    && ValidResponse(cfg, t.reportReply.value, t.requestId) && t.reportReply.value.accepted
  }

  function DuePlace(cfg: Config, c: Client, t: Tick): nat
    requires Executes(cfg, c, t)
  {
    Due(AfterFetch(cfg, c, t), t.now).value
  }

  function DueIndex(cfg: Config, c: Client, t: Tick): nat
    requires Executes(cfg, c, t)
  {
    AfterFetch(cfg, c, t).plan.value.slices[DuePlace(cfg, c, t)].sliceIndex
  }

  /**
   * The server echoes the plan, reports as progress exactly what it holds as done, and adds a reported slice when
   * it accepts the report. A report may also be counted and its reply lost.
   */
  predicate Honest(cfg: Config, p: Plan, w: World, s: Step) {
    && (s.tick.planReply.Ok? ==> Echoes(p, s.tick.planReply.value, w.done))
    && w.done <= s.doneAfter
    && (Executes(cfg, w.client, s.tick) ==> s.doneAfter <= w.done + {DueIndex(cfg, w.client, s.tick)})
    && (!Executes(cfg, w.client, s.tick) ==> s.doneAfter == w.done)
    && (s.tick.reportReply.Ok? ==> Echoes(p, s.tick.reportReply.value.plan, s.doneAfter))
    && (s.tick.reportReply.Ok? ==> (set k | k in s.tick.reportReply.value.progress.completedSlices) == s.doneAfter)
    && (Accepted(cfg, w.client, s.tick) ==> DueIndex(cfg, w.client, s.tick) in s.doneAfter)
  }

  function Logged(cfg: Config, c: Client, t: Tick): Execution
    requires Executes(cfg, c, t)
  {
    Execution(DuePlace(cfg, c, t), t.now, if Assessment.Fetches(cfg, c, t) then Some(t.planDoneAt) else None,
              Accepted(cfg, c, t))
  }

  function Next(cfg: Config, w: World, s: Step): World {
    World(AfterTick(cfg, w.client, s.tick), s.doneAfter,
          if Executes(cfg, w.client, s.tick)
          then w.executed + [Logged(cfg, w.client, s.tick)] else w.executed)
  }

  function Run(cfg: Config, steps: seq<Step>): World {
    if steps == [] then START else Next(cfg, Run(cfg, steps[..|steps| - 1]), steps[|steps| - 1])
  }

  predicate HonestRun(cfg: Config, p: Plan, steps: seq<Step>) {
    steps == [] ||
    (HonestRun(cfg, p, steps[..|steps| - 1]) && Honest(cfg, p, Run(cfg, steps[..|steps| - 1]), steps[|steps| - 1]))
  }

  // --------------------------------------------------------- run invariants

  predicate DecidedInTime(p: Plan, e: Execution) {
    e.position < |p.slices| && p.slotStartMs <= p.slices[e.position].startMs <= e.decided <= p.slotEndMs
  }

  /**
   * Executions in plan order, each decided inside the slot and not before its slice starts; a slice may be executed
   * again only while no execution of it has been accepted.
   */
  predicate InOrder(p: Plan, executed: seq<Execution>) {
    && (forall i, j :: 0 <= i < j < |executed| ==> Reached(executed[i]) <= executed[j].position)
    && (forall i :: 0 <= i < |executed| ==> DecidedInTime(p, executed[i]))
  }

  /** The first `n` slices are completed. */
  predicate CompletedBelow(p: Plan, completed: set<nat>, n: nat) {
    forall j :: 0 <= j < n && j < |p.slices| ==> p.slices[j].sliceIndex in completed
  }

  predicate Behind(p: Plan, w: World) {
    forall i :: 0 <= i < |w.executed| ==> CompletedBelow(p, Completed(w.client), Reached(w.executed[i]))
  }

  predicate Tracks(p: Plan, c: Client, done: set<nat>) {
    && Completed(c) <= done
    && (c.plan.Some? ==> c.progress.Some? && Echoes(p, c.plan.value, done))
  }

  predicate Inv(p: Plan, w: World) {
    Tracks(p, w.client, w.done) && InOrder(p, w.executed) && Behind(p, w)
  }

  lemma EchoesMonotone(p: Plan, q: Plan, done: set<nat>, more: set<nat>)
    requires Echoes(p, q, done) && done <= more
    ensures Echoes(p, q, more)
  {
  }

  lemma {:induction false} FlaggedAreDone(slices: seq<Slice>, done: set<nat>)
    requires forall i :: 0 <= i < |slices| && slices[i].completed ==> slices[i].sliceIndex in done
    ensures forall k :: k in Flagged(slices) ==> k in done
  {
    if slices != [] {
      FlaggedAreDone(slices[1..], done);
    }
  }

  /** A fetch never loses a completed slice and believes no more than the server holds as done. */
  lemma FetchTracks(cfg: Config, p: Plan, c: Client, t: Tick, done: set<nat>)
    requires Tracks(p, c, done) && (t.planReply.Ok? ==> Echoes(p, t.planReply.value, done))
    ensures Tracks(p, AfterFetch(cfg, c, t), done)
    ensures Completed(c) <= Completed(AfterFetch(cfg, c, t))
  {
    if t.planReply.Ok? {
      hide Ingest, Flagged, RetryBackoffMs;
      IngestKeepsCompleted(c, t.planReply.value);
      FlaggedAreDone(t.planReply.value.slices, done);
    }
  }

  lemma DuePositionIgnoresMarks(a: seq<Slice>, b: seq<Slice>, completed: set<nat>, now: U64)
    requires |a| == |b| && forall i :: 0 <= i < |a| ==> a[i].sliceIndex == b[i].sliceIndex && a[i].startMs == b[i].startMs
    ensures DuePosition(a, completed, now) == DuePosition(b, completed, now)
  {
    var x, y := DuePosition(a, completed, now), DuePosition(b, completed, now);
    assert x.Some? && y.Some? ==> !(x.value < y.value) && !(y.value < x.value);
  }

  /** What is due, read off the original plan: the first slice not completed, within the slot and after its start. */
  lemma DueFacts(cfg: Config, p: Plan, c: Client, done: set<nat>, now: U64)
    requires ValidPlan(cfg.agentId, p) && Tracks(p, c, done) && Due(c, now).Some?
    ensures var n := Due(c, now).value;
            && n < |p.slices| && p.slices[n].sliceIndex == c.plan.value.slices[n].sliceIndex
            && p.slices[n].sliceIndex !in Completed(c)
            && p.slotStartMs <= p.slices[n].startMs <= now <= p.slotEndMs
            && CompletedBelow(p, Completed(c), n)
  {
    var q, n := c.plan.value, Due(c, now).value;
    DuePositionIgnoresMarks(q.slices, p.slices, Completed(c), now);
    DueIsFirstIncomplete(cfg.agentId, p, Completed(c), now);
    ValidParts(cfg.agentId, p);
  }

  /** A report either leaves plan and progress alone or takes both from the reply, and does so when accepted. */
  lemma ReportEffect(cfg: Config, c: Client, t: Tick)
    ensures var before, after := AfterFetch(cfg, c, t), AfterTick(cfg, c, t);
            || (!Accepted(cfg, c, t) && after.plan == before.plan && after.progress == before.progress)
            || (t.reportReply.Ok? && after.plan == Some(t.reportReply.value.plan)
                && after.progress == Some(t.reportReply.value.progress))
  {
    hide AfterFetch, RetryBackoffMs, Due, ValidResponse;
  }

  lemma ReportTracks(cfg: Config, p: Plan, w: World, s: Step)
    requires Tracks(p, w.client, w.done) && Honest(cfg, p, w, s)
    ensures Tracks(p, AfterTick(cfg, w.client, s.tick), s.doneAfter)
    ensures Completed(w.client) <= Completed(AfterFetch(cfg, w.client, s.tick))
              <= Completed(AfterTick(cfg, w.client, s.tick))
    ensures Accepted(cfg, w.client, s.tick) ==>
              Completed(AfterTick(cfg, w.client, s.tick)) == s.doneAfter
  {
    var d := AfterFetch(cfg, w.client, s.tick);
    FetchTracks(cfg, p, w.client, s.tick, w.done);
    if d.plan.Some? {
      EchoesMonotone(p, d.plan.value, w.done, s.doneAfter);
    }
    ReportEffect(cfg, w.client, s.tick);
    hide AfterFetch, AfterTick, Echoes, Accepted, Executes, DueIndex;
  }

  lemma CompletedBelowMonotone(p: Plan, a: set<nat>, b: set<nat>, n: nat)
    requires CompletedBelow(p, b, n) && b <= a
    ensures CompletedBelow(p, a, n)
  {
  }

  lemma CompletedBelowNext(p: Plan, completed: set<nat>, n: nat)
    requires CompletedBelow(p, completed, n) && n < |p.slices| && p.slices[n].sliceIndex in completed
    ensures CompletedBelow(p, completed, n + 1)
  {
  }

  lemma InOrderSnoc(p: Plan, executed: seq<Execution>, e: Execution)
    requires InOrder(p, executed) && DecidedInTime(p, e)
    requires forall i :: 0 <= i < |executed| ==> Reached(executed[i]) <= e.position
    ensures InOrder(p, executed + [e])
  {
  }

  lemma ExecutedFacts(cfg: Config, p: Plan, w: World, s: Step)
    requires ValidPlan(cfg.agentId, p) && Tracks(p, w.client, w.done)
    requires Honest(cfg, p, w, s) && Executes(cfg, w.client, s.tick)
    ensures var n := DuePlace(cfg, w.client, s.tick);
            && n < |p.slices| && p.slices[n].sliceIndex == DueIndex(cfg, w.client, s.tick)
            && p.slices[n].sliceIndex !in Completed(w.client)
            && p.slotStartMs <= p.slices[n].startMs <= s.tick.now <= p.slotEndMs
            && CompletedBelow(p, Completed(AfterFetch(cfg, w.client, s.tick)), n)
            && (Accepted(cfg, w.client, s.tick) ==> p.slices[n].sliceIndex in s.doneAfter)
  {
    var d := AfterFetch(cfg, w.client, s.tick);
    FetchTracks(cfg, p, w.client, s.tick, w.done);
    DueFacts(cfg, p, d, w.done, s.tick.now);
    hide AfterFetch, Due, Echoes, ValidPlan, ValidResponse, Completed, Tracks;
  }

  /** What the client knows after an execution: all slices before it are completed, and it too once accepted. */
  lemma ExecutedLeavesBehind(cfg: Config, p: Plan, w: World, s: Step)
    requires ValidPlan(cfg.agentId, p) && Tracks(p, w.client, w.done)
    requires Honest(cfg, p, w, s) && Executes(cfg, w.client, s.tick)
    ensures CompletedBelow(p, Completed(AfterTick(cfg, w.client, s.tick)), Reached(Logged(cfg, w.client, s.tick)))
  {
    var before, after := AfterFetch(cfg, w.client, s.tick), AfterTick(cfg, w.client, s.tick);
    var n := DuePlace(cfg, w.client, s.tick);
    assert Reached(Logged(cfg, w.client, s.tick)) == if Accepted(cfg, w.client, s.tick) then n + 1 else n;
    hide *;
    ExecutedFacts(cfg, p, w, s);
    ReportTracks(cfg, p, w, s);
    CompletedBelowMonotone(p, Completed(after), Completed(before), n);
    if Accepted(cfg, w.client, s.tick) {
      CompletedBelowNext(p, Completed(after), n);
    }
  }

  /** The new execution comes after all that earlier ones left behind, and was decided in time. */
  lemma ExecutedIsNext(cfg: Config, p: Plan, w: World, s: Step)
    requires ValidPlan(cfg.agentId, p) && Inv(p, w) && Honest(cfg, p, w, s) && Executes(cfg, w.client, s.tick)
    ensures InOrder(p, Next(cfg, w, s).executed)
  {
    ExecutedFacts(cfg, p, w, s);
    var n := DuePlace(cfg, w.client, s.tick);
    var e := Logged(cfg, w.client, s.tick);
    hide AfterFetch, Due, Echoes, ValidPlan, Executes, Accepted, Honest, DueIndex, DuePlace, Completed, Tracks, AfterTick;
    forall i | 0 <= i < |w.executed|
      ensures Reached(w.executed[i]) <= n
    {
      assert CompletedBelow(p, Completed(w.client), Reached(w.executed[i]));
    }
    InOrderSnoc(p, w.executed, e);
  }

  lemma InvStep(cfg: Config, p: Plan, w: World, s: Step)
    requires ValidPlan(cfg.agentId, p) && Inv(p, w) && Honest(cfg, p, w, s)
    ensures Inv(p, Next(cfg, w, s))
    ensures Completed(w.client) <= Completed(Next(cfg, w, s).client)
  {
    ReportTracks(cfg, p, w, s);
    var next := Next(cfg, w, s);
    if Executes(cfg, w.client, s.tick) {
      ExecutedIsNext(cfg, p, w, s);
      ExecutedLeavesBehind(cfg, p, w, s);
    }
    hide Executes, Accepted, AfterTick, Honest, Tracks, InOrder, DuePlace, ValidPlan, Reached;
    forall i | 0 <= i < |next.executed|
      ensures CompletedBelow(p, Completed(next.client), Reached(next.executed[i]))
    {
      if i < |w.executed| {
        CompletedBelowMonotone(p, Completed(next.client), Completed(w.client), Reached(w.executed[i]));
      }
    }
  }

  lemma {:induction false} RunInv(cfg: Config, p: Plan, steps: seq<Step>)
    requires ValidPlan(cfg.agentId, p) && HonestRun(cfg, p, steps)
    ensures Inv(p, Run(cfg, steps))
  {
    if steps != [] {
      RunInv(cfg, p, steps[..|steps| - 1]);
      InvStep(cfg, p, Run(cfg, steps[..|steps| - 1]), steps[|steps| - 1]);
    }
  }

  // -------------------------------------------------------------- the results

  /**
   * Over every run the executions follow the plan, whatever became of their replies: in its order, none decided
   * early or outside the slot, and none of a slice that was accepted before.
   */
  lemma SlicesRunInPlanOrder(cfg: Config, p: Plan, steps: seq<Step>)
    requires ValidPlan(cfg.agentId, p) && HonestRun(cfg, p, steps)
    ensures InOrder(p, Run(cfg, steps).executed)
  {
    RunInv(cfg, p, steps);
  }

  lemma {:induction false} FetchEndsLater(cfg: Config, steps: seq<Step>)
    requires forall i :: 0 <= i < |steps| ==> steps[i].tick.now <= steps[i].tick.planDoneAt
    ensures forall i :: 0 <= i < |Run(cfg, steps).executed| ==>
              Run(cfg, steps).executed[i].decided <= Begins(Run(cfg, steps).executed[i])
  {
    if steps != [] {
      FetchEndsLater(cfg, steps[..|steps| - 1]);
      hide Executes, AfterTick, Accepted, DuePlace;
    }
  }

  /**
   * With a clock that does not run backwards no execution begins before its slice starts. It begins inside the slot
   * if and only if no plan fetch came between that ended after the slot: the slot is tested on the reading from
   * before the fetch.
   */
  lemma ExecutionsBeginIff(cfg: Config, p: Plan, steps: seq<Step>, i: nat)
    requires ValidPlan(cfg.agentId, p) && HonestRun(cfg, p, steps) && i < |Run(cfg, steps).executed|
    requires forall k :: 0 <= k < |steps| ==> steps[k].tick.now <= steps[k].tick.planDoneAt
    ensures var e := Run(cfg, steps).executed[i];
            && e.position < |p.slices| && p.slotStartMs <= p.slices[e.position].startMs <= Begins(e)
            && (Begins(e) <= p.slotEndMs <==> !(e.fetchEnd.Some? && e.fetchEnd.value > p.slotEndMs))
  {
    RunInv(cfg, p, steps);
    FetchEndsLater(cfg, steps);
    hide ValidPlan, HonestRun, Run, Tracks, Behind;
    assert DecidedInTime(p, Run(cfg, steps).executed[i]);
  }

  /**
   * Nothing tests the end of a slice's own window. A slice that is chosen at `now` begins inside its window if and
   * only if every slice that had started by `now` and is over by then is completed.
   */
  lemma OwnWindowIff(agentId: string, p: Plan, completed: set<nat>, now: U64, begins: U64)
    requires ValidPlan(agentId, p) && DuePosition(p.slices, completed, now).Some? && now <= begins
    ensures var n := DuePosition(p.slices, completed, now).value;
            p.slices[n].startMs <= begins <= p.slices[n].endMs <==>
              forall j :: 0 <= j < |p.slices| && p.slices[j].startMs <= now && p.slices[j].endMs < begins ==>
                p.slices[j].sliceIndex in completed
  {
    DueIsFirstIncomplete(agentId, p, completed, now);
    ValidParts(agentId, p);
    hide ValidPlan, DuePosition, IndexesDistinct, IndexesBelow;
    var n := DuePosition(p.slices, completed, now).value;
    forall j | 0 <= j < |p.slices| && p.slices[j].sliceIndex !in completed
      ensures p.slices[n].endMs <= p.slices[j].endMs
    {
      assert n < j ==> p.slices[n].endMs <= p.slices[j].startMs;
    }
  }

  lemma {:induction false} NoneFlagged(slices: seq<Slice>)
    requires forall i :: 0 <= i < |slices| ==> !slices[i].completed
    ensures Flagged(slices) == []
  {
    if slices != [] {
      NoneFlagged(slices[1..]);
    }
  }

  /** A first tick at the very end of the slot whose plan fetch outlasts it, and whose report is lost. */
  function LateTick(p: Plan): Tick
    requires p.slotEndMs < U64_MAX
  {
    Tick(p.slotEndMs, Ok(p), p.slotEndMs + 1, Err(RequestError(Transport, None)), "", p.slotEndMs + 1)
  }

  lemma LateTickFetches(cfg: Config, p: Plan)
    requires ValidPlan(cfg.agentId, p) && p.slotEndMs < U64_MAX
    requires forall i :: 0 <= i < |p.slices| ==> !p.slices[i].completed
    ensures Assessment.Fetches(cfg, INITIAL, LateTick(p))
    ensures var d := AfterFetch(cfg, INITIAL, LateTick(p));
            d.plan == Some(p) && Completed(d) == {} && d.nextReportAttemptMs == 0
  {
    NoneFlagged(p.slices);
    hide ValidPlan, Flagged, RetryBackoffMs;
  }

  /** A monotone clock: each tick begins after the previous one's calls finished. */
  predicate WellTimed(ticks: seq<Tick>) {
    && (forall i :: 0 <= i < |ticks| ==> ticks[i].now <= ticks[i].planDoneAt <= ticks[i].reportDoneAt)
    && (forall i, j :: 0 <= i < j < |ticks| ==> ticks[i].reportDoneAt <= ticks[j].now)
  }

  /** For every plan with nothing completed some run begins its first slice after the slot, and after its own window. */
  lemma LateRun(cfg: Config, p: Plan)
    requires ValidPlan(cfg.agentId, p) && p.slotEndMs < U64_MAX
    requires forall i :: 0 <= i < |p.slices| ==> !p.slices[i].completed
    ensures var steps := [Step(LateTick(p), {})];
            && HonestRun(cfg, p, steps) && WellTimed([LateTick(p)]) && |Run(cfg, steps).executed| == 1
            && var e := Run(cfg, steps).executed[0];
               && e.position == 0 && e.decided == p.slotEndMs < Begins(e)
               && (|p.slices| > 1 ==> p.slices[0].endMs < e.decided)
  {
    var t := LateTick(p);
    var s := Step(t, {});
    LateTickFetches(cfg, p);
    ValidParts(cfg.agentId, p);
    assert |p.slices| > 1 ==> p.slices[0].endMs <= p.slices[1].startMs < p.slices[1].endMs <= p.slotEndMs;
    var d := AfterFetch(cfg, INITIAL, t);
    assert Due(d, t.now) == Some(0);
    assert Executes(cfg, INITIAL, t);
    hide ValidPlan, AfterFetch, AfterTick, ValidResponse;
    assert Honest(cfg, p, START, s);
    assert [s][..0] == [];
    assert HonestRun(cfg, p, [s]);
    assert Run(cfg, [s]).executed == [] + [Logged(cfg, INITIAL, t)];
  }

  /** However the run goes on, a completed slice stays completed: neither a refresh nor a failure loses it. */
  lemma {:induction false} CompletedNeverLost(cfg: Config, p: Plan, steps: seq<Step>, n: nat)
    requires ValidPlan(cfg.agentId, p) && HonestRun(cfg, p, steps) && n <= |steps|
    ensures Completed(Run(cfg, steps[..n]).client) <= Completed(Run(cfg, steps).client)
    decreases |steps|
  {
    if n == |steps| {
      assert steps[..n] == steps;
    } else {
      var front := steps[..|steps| - 1];
      CompletedNeverLost(cfg, p, front, n);
      assert front[..n] == steps[..n];
      RunInv(cfg, p, front);
      InvStep(cfg, p, Run(cfg, front), steps[|steps| - 1]);
    }
  }

  /** The slices that the client still has to run. */
  function Remaining(p: Plan, c: Client): set<nat> {
    IndexSet(p.slices) - Completed(c)
  }

  /** Every accepted slice leaves strictly fewer slices to run, and no tick leaves more. */
  lemma RemainingDecreases(cfg: Config, p: Plan, w: World, s: Step)
    requires ValidPlan(cfg.agentId, p) && Inv(p, w) && Honest(cfg, p, w, s)
    ensures Remaining(p, Next(cfg, w, s).client) <= Remaining(p, w.client)
    ensures Accepted(cfg, w.client, s.tick) ==> Remaining(p, Next(cfg, w, s).client) < Remaining(p, w.client)
  {
    InvStep(cfg, p, w, s);
    ReportTracks(cfg, p, w, s);
    if Accepted(cfg, w.client, s.tick) {
      ExecutedFacts(cfg, p, w, s);
      var k := DueIndex(cfg, w.client, s.tick);
      assert k in Remaining(p, w.client) && k !in Remaining(p, Next(cfg, w, s).client);
    }
  }

  /** Within the slot something is due exactly when a started slice remains; once none remains nothing ever is. */
  lemma DueIff(cfg: Config, p: Plan, c: Client, done: set<nat>, now: U64)
    requires ValidPlan(cfg.agentId, p) && Tracks(p, c, done) && c.plan.Some?
    ensures Due(c, now).Some? <==>
              p.slotStartMs <= now <= p.slotEndMs
              && exists j :: 0 <= j < |p.slices| && p.slices[j].startMs <= now && p.slices[j].sliceIndex in Remaining(p, c)
    ensures Remaining(p, c) == {} ==> Due(c, now).None?
  {
    DuePositionIgnoresMarks(c.plan.value.slices, p.slices, Completed(c), now);
    DueIsFirstIncomplete(cfg.agentId, p, Completed(c), now);
    hide DuePosition, ValidPlan;
    assert forall j :: 0 <= j < |p.slices| ==> p.slices[j].sliceIndex in IndexSet(p.slices);
  }

  function AcceptedCount(executed: seq<Execution>): nat {
    if executed == [] then 0
    else AcceptedCount(executed[..|executed| - 1]) + if executed[|executed| - 1].accepted then 1 else 0
  }

  lemma {:induction false} AcceptedClimb(p: Plan, executed: seq<Execution>)
    requires InOrder(p, executed)
    ensures executed == [] ==> AcceptedCount(executed) == 0
    ensures executed != [] ==>
              AcceptedCount(executed) <= Reached(executed[|executed| - 1]) <= |p.slices|
  {
    if executed != [] {
      var n := |executed| - 1;
      AcceptedClimb(p, executed[..n]);
      assert DecidedInTime(p, executed[n]);
      assert n > 0 ==> Reached(executed[n - 1]) <= executed[n].position;
    }
  }

  /** A run accepts no more slices than the plan has, and accepting the last one means that all are completed. */
  lemma LastSliceMeansAll(cfg: Config, p: Plan, steps: seq<Step>)
    requires ValidPlan(cfg.agentId, p) && HonestRun(cfg, p, steps)
    ensures AcceptedCount(Run(cfg, steps).executed) <= p.sliceCount
    ensures (exists i :: 0 <= i < |Run(cfg, steps).executed| && Reached(Run(cfg, steps).executed[i]) == p.sliceCount)
              ==> Remaining(p, Run(cfg, steps).client) == {}
  {
    RunInv(cfg, p, steps);
    ValidParts(cfg.agentId, p);
    hide ValidPlan, HonestRun, Run, Tracks, AcceptedCount;
    AcceptedClimb(p, Run(cfg, steps).executed);
  }

  // ------------------------------------------------------------ conservation

  function AcceptedSlice(p: Plan, e: Execution): seq<Slice> {
    if e.accepted && e.position < |p.slices| then [p.slices[e.position]] else []
  }

  /** The slices whose reports were accepted, in the order of their acceptance. */
  function AcceptedSlices(p: Plan, executed: seq<Execution>): seq<Slice> {
    if executed == [] then []
    else AcceptedSlices(p, executed[..|executed| - 1]) + AcceptedSlice(p, executed[|executed| - 1])
  }

  lemma InOrderFront(p: Plan, executed: seq<Execution>)
    requires InOrder(p, executed) && executed != []
    ensures var front, e := executed[..|executed| - 1], executed[|executed| - 1];
            && InOrder(p, front) && e.position < |p.slices|
            && forall i :: 0 <= i < |front| ==> Reached(front[i]) <= e.position
  {
    assert DecidedInTime(p, executed[|executed| - 1]);
  }

  predicate AllReach(executed: seq<Execution>, n: nat) {
    forall i :: 0 <= i < |executed| ==> Reached(executed[i]) <= n
  }

  lemma AcceptedFillStep(p: Plan, executed: seq<Execution>, n: nat)
    requires InOrder(p, executed) && AcceptedCount(executed) == n <= |p.slices| && AllReach(executed, n)
    requires executed != []
    ensures var front, e := executed[..|executed| - 1], executed[|executed| - 1];
            && InOrder(p, front) && e.position < |p.slices|
            && (e.accepted ==> n > 0 && e.position == n - 1 && AcceptedCount(front) == n - 1 && AllReach(front, n - 1))
            && (!e.accepted ==> AcceptedCount(front) == n && AllReach(front, n))
  {
    InOrderFront(p, executed);
    hide InOrder;
    AcceptedClimb(p, executed[..|executed| - 1]);
  }

  lemma TakeOneMore(slices: seq<Slice>, n: nat)
    requires 0 < n <= |slices|
    ensures slices[..n - 1] + [slices[n - 1]] == slices[..n]
  {
  }

  lemma {:induction false} AcceptedFill(p: Plan, executed: seq<Execution>, n: nat)
    requires InOrder(p, executed) && AcceptedCount(executed) == n <= |p.slices| && AllReach(executed, n)
    ensures AcceptedSlices(p, executed) == p.slices[..n]
  {
    if executed == [] {
      assert p.slices[..0] == [];
    } else {
      AcceptedFillStep(p, executed, n);
      var front, e := executed[..|executed| - 1], executed[|executed| - 1];
      hide InOrder, AcceptedCount, AllReach;
      AcceptedFill(p, front, if e.accepted then n - 1 else n);
      assert AcceptedSlices(p, executed) == AcceptedSlices(p, front) + AcceptedSlice(p, e);
      hide AcceptedSlices;
      if e.accepted {
        TakeOneMore(p.slices, n);
      } else {
        assert p.slices[..n] + [] == p.slices[..n];
      }
    }
  }

  /** What the client reports for a slice depends on the plan as first drawn up, whichever echo of it the client holds. */
  lemma ReportOfPlan(hash: Hash, cfg: Config, p: Plan, w: World, s: Step, cache: Inventory)
    requires ValidPlan(cfg.agentId, p) && Inv(p, w) && Honest(cfg, p, w, s) && Executes(cfg, w.client, s.tick)
    ensures DuePlace(cfg, w.client, s.tick) < |p.slices|
    ensures SelectSliceInventory(hash, AfterFetch(cfg, w.client, s.tick).plan, cache, DueIndex(cfg, w.client, s.tick))
         == SelectSliceInventory(hash, Some(p), cache, p.slices[DuePlace(cfg, w.client, s.tick)].sliceIndex)
  {
    ExecutedFacts(cfg, p, w, s);
    FetchTracks(cfg, p, w.client, s.tick, w.done);
    hide Select, AfterFetch, DueIndex, DuePlace, ValidPlan, Honest, Inv;
    assert AfterFetch(cfg, w.client, s.tick).plan.Some?;
  }

  lemma ExecutionsConserve(agentId: string, p: Plan, executed: seq<Execution>, hash: Hash, cache: Inventory)
    requires ValidPlan(agentId, p) && InOrder(p, executed) && AcceptedCount(executed) == p.sliceCount
    ensures Reported(hash, p, cache, AcceptedSlices(p, executed)) ==
            Totals(multiset(cache.packages), multiset(cache.modules), multiset(cache.services), multiset(cache.processes))
  {
    ValidParts(agentId, p);
    hide ValidPlan, AcceptedCount, AcceptedSlices, Reported, IndexesDistinct, IndexesBelow, WindowsOrdered, InOrder;
    AcceptedFill(p, executed, p.sliceCount);
    assert p.slices[..p.sliceCount] == p.slices;
    SlicesConserveInventory(agentId, p, hash, cache);
  }

  /**
   * Conservation over runs: once as many reports are accepted as the plan has slices, they carry the whole cache
   * together, every record exactly once.
   */
  lemma RunConservesInventory(cfg: Config, p: Plan, steps: seq<Step>, hash: Hash, cache: Inventory)
    requires ValidPlan(cfg.agentId, p) && HonestRun(cfg, p, steps)
    requires AcceptedCount(Run(cfg, steps).executed) == p.sliceCount
    ensures Reported(hash, p, cache, AcceptedSlices(p, Run(cfg, steps).executed)) ==
            Totals(multiset(cache.packages), multiset(cache.modules), multiset(cache.services), multiset(cache.processes))
  {
    RunInv(cfg, p, steps);
    hide ValidPlan, HonestRun, Run, Tracks, Behind, InOrder, AcceptedCount, AcceptedSlices, Reported;
    ExecutionsConserve(cfg.agentId, p, Run(cfg, steps).executed, hash, cache);
  }

  // ------------------------------------------------------ spacing of fetches

  /** A plan fetch: the tick that began it and the time it finished. */
  datatype Fetched = Fetched(start: U64, finish: U64)

  /** The fetches of a run of ticks against any server. */
  function Fetches(cfg: Config, ticks: seq<Tick>): (Client, seq<Fetched>) {
    if ticks == [] then (INITIAL, [])
    else
      var (c, log) := Fetches(cfg, ticks[..|ticks| - 1]);
      var t := ticks[|ticks| - 1];
      (AfterTick(cfg, c, t),
       if Assessment.Fetches(cfg, c, t) then log + [Fetched(t.now, t.planDoneAt)] else log)
  }

  function Gap(cfg: Config): nat {
    Min(MIN_RETRY_BACKOFF_MS, cfg.pollIntervalMs)
  }

  /** The earliest time that the next fetch may begin, below the end of the 64-bit clock. */
  function Earliest(cfg: Config, f: Fetched): nat {
    Min(f.finish + Gap(cfg), U64_MAX)
  }

  predicate Spaced(cfg: Config, log: seq<Fetched>) {
    forall i, j :: 0 <= i < j < |log| ==> Earliest(cfg, log[i]) <= log[j].start
  }

  predicate AllBefore(cfg: Config, log: seq<Fetched>, next: nat) {
    forall i :: 0 <= i < |log| ==> Earliest(cfg, log[i]) <= next
  }

  /** Whatever the reply, the next attempt is put off by at least the gap; a report does not touch it. */
  lemma NextAttemptIsLater(cfg: Config, c: Client, t: Tick)
    ensures Assessment.Fetches(cfg, c, t) ==>
              Min(t.planDoneAt + Gap(cfg), U64_MAX) <= AfterTick(cfg, c, t).nextPlanAttemptMs
    ensures !Assessment.Fetches(cfg, c, t) ==> AfterTick(cfg, c, t).nextPlanAttemptMs == c.nextPlanAttemptMs
  {
    hide RetryBackoffMs, ValidPlan, Ingest, Due, ValidResponse;
    var streak := Bump(c.planFailureStreak);
    BackoffBounds(streak, true, cfg.hash("plan_fetch", streak));
    BackoffBounds(streak, false, cfg.hash("plan_fetch", streak));
  }

  /** A held plan is never refreshed before the poll interval is up, counted from its own fetch. */
  predicate GateHolds(cfg: Config, c: Client) {
    c.plan.Some? ==> Min(c.lastPlanFetchMs + cfg.pollIntervalMs, U64_MAX) <= c.nextPlanAttemptMs
  }

  lemma GateStep(cfg: Config, c: Client, t: Tick)
    requires GateHolds(cfg, c) && t.now <= t.planDoneAt
    ensures GateHolds(cfg, AfterTick(cfg, c, t))
  {
    hide RetryBackoffMs, Ingest, Due, ValidPlan, ValidResponse;
    var d := AfterFetch(cfg, c, t);
    assert GateHolds(cfg, d) && (Executes(cfg, c, t) ==> d.plan.Some?);
  }

  lemma {:induction false} GateRun(cfg: Config, ticks: seq<Tick>)
    requires forall i :: 0 <= i < |ticks| ==> ticks[i].now <= ticks[i].planDoneAt
    ensures GateHolds(cfg, Fetches(cfg, ticks).0)
  {
    if ticks != [] {
      GateRun(cfg, ticks[..|ticks| - 1]);
      GateStep(cfg, Fetches(cfg, ticks[..|ticks| - 1]).0, ticks[|ticks| - 1]);
    }
  }

  /**
   * In every reachable state the attempt gate alone decides whether a plan is fetched: the other conditions of the
   * refresh test, the passed cycle deadline among them, never bring a fetch forward.
   */
  lemma GateAloneDecides(cfg: Config, ticks: seq<Tick>, t: Tick)
    requires forall i :: 0 <= i < |ticks| ==> ticks[i].now <= ticks[i].planDoneAt
    ensures var c := Fetches(cfg, ticks).0;
            c.lastPlanFetchMs + cfg.pollIntervalMs <= U64_MAX ==>
              (Assessment.Fetches(cfg, c, t) <==> t.now >= c.nextPlanAttemptMs)
  {
    GateRun(cfg, ticks);
    hide Fetches;
  }

  /** The client after a run of ticks. */
  function Idle(cfg: Config, c: Client, ticks: seq<Tick>): Client
    decreases |ticks|
  {
    if ticks == [] then c else Idle(cfg, AfterTick(cfg, c, ticks[0]), ticks[1..])
  }

  predicate NoneExecutes(cfg: Config, c: Client, ticks: seq<Tick>)
    decreases |ticks|
  {
    ticks != [] ==> !Executes(cfg, c, ticks[0]) && NoneExecutes(cfg, AfterTick(cfg, c, ticks[0]), ticks[1..])
  }

  /** After ticks that report nothing the next report still waits for the time set before them. */
  lemma {:induction false} IdleKeepsReportTime(cfg: Config, c: Client, ticks: seq<Tick>)
    requires NoneExecutes(cfg, c, ticks)
    ensures Idle(cfg, c, ticks).nextReportAttemptMs == c.nextReportAttemptMs
    decreases |ticks|
  {
    if ticks != [] {
      IdleKeepsReportTime(cfg, AfterTick(cfg, c, ticks[0]), ticks[1..]);
    }
  }

  /** A report that failed or was refused, stale plans apart, is followed by a pause before the next one. */
  predicate Refused(cfg: Config, c: Client, t: Tick) {
    && Executes(cfg, c, t)
    && !(t.reportReply.Ok? && ValidResponse(cfg, t.reportReply.value, t.requestId)
         && (t.reportReply.value.accepted || t.reportReply.value.disposition == "stale_plan"))
  }

  lemma FetchKeepsReportTime(cfg: Config, c: Client, t: Tick)
    ensures AfterFetch(cfg, c, t).nextReportAttemptMs == c.nextReportAttemptMs
  {
  }

  /** However many fetches and idle ticks lie between, the next report comes at least 15 000 ms after a failed one. */
  lemma FailedReportWaits(cfg: Config, c: Client, t: Tick, between: seq<Tick>, next: Tick)
    requires Refused(cfg, c, t) && NoneExecutes(cfg, AfterTick(cfg, c, t), between)
    requires Executes(cfg, Idle(cfg, AfterTick(cfg, c, t), between), next)
    ensures Min(t.reportDoneAt + MIN_RETRY_BACKOFF_MS, U64_MAX) <= next.now
  {
    IdleKeepsReportTime(cfg, AfterTick(cfg, c, t), between);
    var streak := Bump(AfterFetch(cfg, c, t).reportFailureStreak);
    BackoffBounds(streak, true, cfg.hash("report", streak));
    BackoffBounds(streak, false, cfg.hash("report", streak));
    FetchKeepsReportTime(cfg, Idle(cfg, AfterTick(cfg, c, t), between), next);
    hide RetryBackoffMs, AfterFetch, Due, ValidResponse, Idle, NoneExecutes;
  }

  predicate AllFinished(log: seq<Fetched>, now: U64) {
    forall i :: 0 <= i < |log| ==> log[i].finish <= now
  }

  lemma SpacedSnoc(cfg: Config, log: seq<Fetched>, next: U64, f: Fetched, next': U64)
    requires Spaced(cfg, log) && AllBefore(cfg, log, next) && AllFinished(log, f.start)
    requires next <= f.start <= f.finish && Earliest(cfg, f) <= next'
    ensures Spaced(cfg, log + [f]) && AllBefore(cfg, log + [f], next') && AllFinished(log + [f], f.finish)
  {
    forall i | 0 <= i < |log|
      ensures Earliest(cfg, log[i]) <= Earliest(cfg, f)
    {
      assert log[i].finish <= f.start;
    }
  }

  lemma AllFinishedLater(log: seq<Fetched>, now: U64, later: U64)
    requires AllFinished(log, now) && now <= later
    ensures AllFinished(log, later)
  {
  }

  lemma WellTimedFront(ticks: seq<Tick>)
    requires WellTimed(ticks) && ticks != []
    ensures WellTimed(ticks[..|ticks| - 1])
    ensures var t := ticks[|ticks| - 1];
            t.now <= t.planDoneAt && (|ticks| > 1 ==> ticks[|ticks| - 2].planDoneAt <= t.now)
  {
    var n := |ticks| - 1;
    assert n > 0 ==> ticks[n - 1].planDoneAt <= ticks[n - 1].reportDoneAt <= ticks[n].now;
  }

  /** Between the end of one plan fetch and the start of any later one lie at least min(15 000, poll interval) ms. */
  lemma {:induction false} FetchesAreSpaced(cfg: Config, ticks: seq<Tick>)
    requires WellTimed(ticks)
    ensures Spaced(cfg, Fetches(cfg, ticks).1)
    ensures AllBefore(cfg, Fetches(cfg, ticks).1, Fetches(cfg, ticks).0.nextPlanAttemptMs)
    ensures AllFinished(Fetches(cfg, ticks).1, if ticks == [] then 0 else ticks[|ticks| - 1].planDoneAt)
  {
    if ticks != [] {
      var front, t := ticks[..|ticks| - 1], ticks[|ticks| - 1];
      WellTimedFront(ticks);
      FetchesAreSpaced(cfg, front);
      var (c, log) := Fetches(cfg, front);
      NextAttemptIsLater(cfg, c, t);
      hide AfterTick, PlanRefreshDue, WellTimed, AllBefore, AllFinished, Spaced;
      AllFinishedLater(log, if front == [] then 0 else front[|front| - 1].planDoneAt, t.now);
      AllFinishedLater(log, t.now, t.planDoneAt);
      if Assessment.Fetches(cfg, c, t) {
        SpacedSnoc(cfg, log, c.nextPlanAttemptMs, Fetched(t.now, t.planDoneAt), AfterTick(cfg, c, t).nextPlanAttemptMs);
      }
    }
  }
}
