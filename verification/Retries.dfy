/** Whole runs of the assessment client seen through its replies: what the failure streaks count, when it tries again. */
module Retries {
  import opened Assessment
  import opened Machine
  import opened Planning
  import Text

  /** What became of one call: a success, or a failure that is or is not worth a quick retry. */
  datatype Outcome = Succeeded | Failed(quick: bool)

  datatype Call = Call(outcome: Outcome, end: U64)

  /** Transport and parse errors, and the statuses 408, 429 and 500 upwards. */
  predicate Passing(e: RequestError) {
    match e.kind
    case Transport => true
    case Parse => true
    case _ => e.status.Some? && (e.status.value == 408 || e.status.value == 429 || 500 <= e.status.value)
  }

  /** A plan that breaks a rule counts as a failure that is not worth a quick retry. */
  function PlanOutcome(agentId: string, reply: Result<Plan, RequestError>): Outcome {
    match reply
    case Err(e) => Failed(Passing(e))
    case Ok(p) => if ValidPlan(agentId, p) then Succeeded else Failed(false)
  }

  /** An accepted report and a stale plan both count as success. */
  function ReportOutcome(agentId: string, reply: Result<Response, RequestError>, requestId: string): Outcome {
    match reply
    case Err(e) => Failed(Passing(e))
    case Ok(r) =>
      if (Text.Blank(r.agentId) || r.agentId == agentId)
         && (r.protocolVersion < 2 || r.requestId == requestId)
         && ValidPlan(agentId, r.plan)
         && (r.progress.sliceCount == 0 || r.progress.sliceCount == r.plan.sliceCount)
         && (r.progress.slotCount == 0 || r.progress.slotCount == r.plan.slotCount)
         && (r.accepted || r.disposition == "stale_plan")
      then Succeeded else Failed(false)
  }

  function ClientAfter(cfg: Config, ticks: seq<Tick>): Client {
    if ticks == [] then INITIAL else AfterTick(cfg, ClientAfter(cfg, ticks[..|ticks| - 1]), ticks[|ticks| - 1])
  }

  /** The plan fetches of a run, in order. */
  function PlanCalls(cfg: Config, ticks: seq<Tick>): seq<Call> {
    if ticks == [] then []
    else
      var front, t := ticks[..|ticks| - 1], ticks[|ticks| - 1];
      PlanCalls(cfg, front)
      + if Fetches(cfg, ClientAfter(cfg, front), t) then [Call(PlanOutcome(cfg.agentId, t.planReply), t.planDoneAt)] else []
  }

  /** The reports of a run, in order. */
  function ReportCalls(cfg: Config, ticks: seq<Tick>): seq<Call> {
    if ticks == [] then []
    else
      var front, t := ticks[..|ticks| - 1], ticks[|ticks| - 1];
      ReportCalls(cfg, front)
      + if Executes(cfg, ClientAfter(cfg, front), t)
        then [Call(ReportOutcome(cfg.agentId, t.reportReply, t.requestId), t.reportDoneAt)] else []
  }

  /** The failures since the last success. */
  function FailuresSince(calls: seq<Call>): nat {
    if calls == [] || calls[|calls| - 1].outcome.Succeeded? then 0 else 1 + FailuresSince(calls[..|calls| - 1])
  }

  /** What it counts: the last `n` calls failed, and the one before them, if any, did not. */
  lemma {:induction false} FailuresAreTrailing(calls: seq<Call>)
    ensures var n := FailuresSince(calls);
            && n <= |calls| && (forall i :: |calls| - n <= i < |calls| ==> calls[i].outcome.Failed?)
            && (n < |calls| ==> calls[|calls| - n - 1].outcome.Succeeded?)
  {
    if calls != [] && calls[|calls| - 1].outcome.Failed? {
      FailuresAreTrailing(calls[..|calls| - 1]);
    }
  }

  /** The wait after the `n`-th failure in a row: the base doubled up to five times, at most 300 s, and the jitter. */
  function Wait(cfg: Config, phase: string, quick: bool, n: nat): nat
    requires n > 0
  {
    var base := if quick then 15_000 else 30_000;
    var doublings := if n <= 6 then n - 1 else 5;
    var scaled := base * (if doublings == 0 then 1 else if doublings == 1 then 2 else if doublings == 2 then 4
                          else if doublings == 3 then 8 else if doublings == 4 then 16 else 32);
    (if scaled <= 300_000 then scaled else 300_000)
    + cfg.hash(phase, if n <= 0xFFFF_FFFF then n else 0xFFFF_FFFF) % (base / 3)
  }

  /** Streak and next attempt, as the calls so far determine them. */
  predicate Reflects(cfg: Config, phase: string, calls: seq<Call>, streak: U32, next: U64, afterSuccess: nat) {
    && streak == (if FailuresSince(calls) <= 0xFFFF_FFFF then FailuresSince(calls) else 0xFFFF_FFFF)
    && next == (if calls == [] then 0
                else
                  match calls[|calls| - 1].outcome
                  case Succeeded => afterSuccess
                  case Failed(quick) => Min(calls[|calls| - 1].end + Wait(cfg, phase, quick, FailuresSince(calls)), U64_MAX))
  }

  lemma PassingIsRetryable(e: RequestError)
    ensures Passing(e) <==> Retryable(e)
  {
  }

  lemma BackoffIsWait(cfg: Config, phase: string, retryable: bool, streak: U32, n: nat)
    requires n > 0 && streak == (if n <= 0xFFFF_FFFF then n else 0xFFFF_FFFF)
    ensures RetryBackoffMs(streak, retryable, cfg.hash(phase, streak)) == Wait(cfg, phase, retryable, n)
  {
    Pow2Small(Min(streak - 1, 5));
  }

  /** A failed call lengthens the streak by one, and sets the next attempt by that. */
  lemma FailedReflects(cfg: Config, phase: string, calls: seq<Call>, streak: U32, retryable: bool, end: U64)
    requires streak == (if FailuresSince(calls) <= 0xFFFF_FFFF then FailuresSince(calls) else 0xFFFF_FFFF)
    ensures var more := calls + [Call(Failed(retryable), end)];
            var bumped := Bump(streak);
            FailuresSince(more) == FailuresSince(calls) + 1
            && forall after: nat ::
                 Reflects(cfg, phase, more, bumped, SatAdd(end, RetryBackoffMs(bumped, retryable, cfg.hash(phase, bumped))), after)
  {
    var more := calls + [Call(Failed(retryable), end)];
    assert more[..|more| - 1] == calls;
    BackoffIsWait(cfg, phase, retryable, Bump(streak), FailuresSince(more));
    hide RetryBackoffMs, Wait;
  }

  lemma SucceededReflects(cfg: Config, phase: string, calls: seq<Call>, end: U64, next: U64)
    ensures Reflects(cfg, phase, calls + [Call(Succeeded, end)], 0, next, next)
  {
  }

  function AfterPlan(cfg: Config, calls: seq<Call>): nat {
    if calls == [] then 0 else Min(calls[|calls| - 1].end + cfg.pollIntervalMs, U64_MAX)
  }

  predicate PlanReflects(cfg: Config, calls: seq<Call>, c: Client) {
    Reflects(cfg, "plan_fetch", calls, c.planFailureStreak, c.nextPlanAttemptMs, AfterPlan(cfg, calls))
  }

  predicate ReportReflects(cfg: Config, calls: seq<Call>, c: Client) {
    Reflects(cfg, "report", calls, c.reportFailureStreak, c.nextReportAttemptMs, 0)
  }

  lemma FetchReflects(cfg: Config, calls: seq<Call>, c: Client, reply: Result<Plan, RequestError>, end: U64)
    requires PlanReflects(cfg, calls, c)
    ensures var d := FetchPlan(cfg, c, reply, end);
            PlanReflects(cfg, calls + [Call(PlanOutcome(cfg.agentId, reply), end)], d)
            && d.reportFailureStreak == c.reportFailureStreak && d.nextReportAttemptMs == c.nextReportAttemptMs
  {
    hide RetryBackoffMs, ValidPlan, Ingest, Wait;
    match reply
    case Err(e) =>
      PassingIsRetryable(e);
      hide Retryable, Passing;
      FailedReflects(cfg, "plan_fetch", calls, c.planFailureStreak, Retryable(e), end);
    case Ok(p) =>
      FailedReflects(cfg, "plan_fetch", calls, c.planFailureStreak, false, end);
      SucceededReflects(cfg, "plan_fetch", calls, end, SatAdd(end, cfg.pollIntervalMs));
  }

  lemma ExecuteReflects(cfg: Config, calls: seq<Call>, c: Client, t: Tick)
    requires ReportReflects(cfg, calls, c)
    ensures var d := ExecuteSlice(cfg, c, t.reportReply, t.requestId, t.reportDoneAt);
            ReportReflects(cfg, calls + [Call(ReportOutcome(cfg.agentId, t.reportReply, t.requestId), t.reportDoneAt)], d)
            && d.planFailureStreak == c.planFailureStreak && d.nextPlanAttemptMs == c.nextPlanAttemptMs
  {
    hide RetryBackoffMs, ValidPlan, Wait, Text.Blank;
    match t.reportReply
    case Err(e) =>
      PassingIsRetryable(e);
      hide Retryable, Passing;
      FailedReflects(cfg, "report", calls, c.reportFailureStreak, Retryable(e), t.reportDoneAt);
    case Ok(r) =>
      FailedReflects(cfg, "report", calls, c.reportFailureStreak, false, t.reportDoneAt);
      SucceededReflects(cfg, "report", calls, t.reportDoneAt, 0);
  }

  lemma ReportLeavesPlanTimes(cfg: Config, d: Client, t: Tick)
    ensures var e := ExecuteSlice(cfg, d, t.reportReply, t.requestId, t.reportDoneAt);
            e.planFailureStreak == d.planFailureStreak && e.nextPlanAttemptMs == d.nextPlanAttemptMs
  {
    hide RetryBackoffMs, ValidResponse;
  }

  lemma FetchReflectsTick(cfg: Config, calls: seq<Call>, c: Client, t: Tick)
    requires PlanReflects(cfg, calls, c)
    ensures PlanReflects(cfg, calls + (if Fetches(cfg, c, t) then [Call(PlanOutcome(cfg.agentId, t.planReply), t.planDoneAt)]
                                       else []), AfterTick(cfg, c, t))
  {
    hide Reflects, FetchPlan, ExecuteSlice, Due, PlanOutcome, PlanRefreshDue;
    FetchReflects(cfg, calls, c, t.planReply, t.planDoneAt);
    ReportLeavesPlanTimes(cfg, AfterFetch(cfg, c, t), t);
    assert calls + [] == calls;
  }

  /**
   * After every run the plan streak is the number of failed fetches since the last successful one, saturated, and the
   * next fetch is set by the last reply: a poll interval after a success, that wait after a failure.
   */
  lemma {:induction false} PlanStreakCounts(cfg: Config, ticks: seq<Tick>)
    ensures PlanReflects(cfg, PlanCalls(cfg, ticks), ClientAfter(cfg, ticks))
  {
    if ticks != [] {
      var front, t := ticks[..|ticks| - 1], ticks[|ticks| - 1];
      var c := ClientAfter(cfg, front);
      PlanStreakCounts(cfg, front);
      hide PlanReflects, FetchPlan, ExecuteSlice, Fetches, Due;
      FetchReflectsTick(cfg, PlanCalls(cfg, front), c, t);
    }
  }

  lemma FetchLeavesReportTimes(cfg: Config, c: Client, t: Tick)
    ensures var d := FetchPlan(cfg, c, t.planReply, t.planDoneAt);
            d.reportFailureStreak == c.reportFailureStreak && d.nextReportAttemptMs == c.nextReportAttemptMs
  {
    hide RetryBackoffMs, ValidPlan, Ingest;
  }

  lemma ExecuteReflectsTick(cfg: Config, calls: seq<Call>, c: Client, t: Tick)
    requires ReportReflects(cfg, calls, c)
    ensures ReportReflects(cfg, calls + (if Executes(cfg, c, t)
                                         then [Call(ReportOutcome(cfg.agentId, t.reportReply, t.requestId), t.reportDoneAt)]
                                         else []), AfterTick(cfg, c, t))
  {
    hide Reflects, FetchPlan, ExecuteSlice, Due, ReportOutcome, PlanRefreshDue;
    FetchLeavesReportTimes(cfg, c, t);
    assert ReportReflects(cfg, calls, AfterFetch(cfg, c, t));
    ExecuteReflects(cfg, calls, AfterFetch(cfg, c, t), t);
    assert calls + [] == calls;
  }

  /** The same for reports; after an accepted one or a stale plan the next may follow at once. */
  lemma {:induction false} ReportStreakCounts(cfg: Config, ticks: seq<Tick>)
    ensures ReportReflects(cfg, ReportCalls(cfg, ticks), ClientAfter(cfg, ticks))
  {
    if ticks != [] {
      var front, t := ticks[..|ticks| - 1], ticks[|ticks| - 1];
      var c := ClientAfter(cfg, front);
      ReportStreakCounts(cfg, front);
      hide ReportReflects, AfterTick, Executes, ReportOutcome;
      ExecuteReflectsTick(cfg, ReportCalls(cfg, front), c, t);
    }
  }

  // ------------------------------------------------------ what the client holds

  /** A plan taken in is held from then on, its header copied into the progress; a failed fetch changes neither. */
  lemma HeldAfterFetch(cfg: Config, c: Client, reply: Result<Plan, RequestError>, end: U64)
    ensures var d := FetchPlan(cfg, c, reply, end);
            if PlanOutcome(cfg.agentId, reply).Failed? then
              d.plan == c.plan && d.progress == c.progress && d.lastPlanFetchMs == c.lastPlanFetchMs
            else
              var p := reply.value;
              && d.plan == Some(p) && d.lastPlanFetchMs == end && d.progress.Some?
              && var q := d.progress.value;
                 && q.lastPlanMs == p.generatedEpochMs && q.cycleStartMs == p.cycleStartMs
                 && q.cycleDeadlineMs == p.cycleDeadlineMs && q.slotStartMs == p.slotStartMs && q.slotEndMs == p.slotEndMs
                 && q.slotIndex == p.slotIndex && q.slotCount == p.slotCount && q.sliceCount == p.sliceCount
                 && q.protocolVersion == (if p.protocolVersion == 0 then 1 else p.protocolVersion)
                 && q.planToken == p.planToken
                 && (c.progress.None? ==> q.completedSlices == Flagged(p.slices)
                                          && q.completedSliceCount == p.completedSliceCount)
  {
    hide ValidPlan, RetryBackoffMs, Flagged;
  }

  /** A reply that fits the request, accepted or not, replaces plan and progress; any other leaves them. */
  lemma HeldAfterReport(cfg: Config, c: Client, reply: Result<Response, RequestError>, requestId: string, end: U64)
    ensures var d := ExecuteSlice(cfg, c, reply, requestId, end);
            && d.lastPlanFetchMs == c.lastPlanFetchMs
            && if reply.Ok? && ReportOutcome(cfg.agentId, Ok(reply.value.(accepted := true)), requestId).Succeeded?
               then d.plan == Some(reply.value.plan) && d.progress == Some(reply.value.progress)
               else d.plan == c.plan && d.progress == c.progress
  {
    hide ValidPlan, RetryBackoffMs, Text.Blank;
  }

  /** The completed slices of a first plan are those that it marks, in its order. */
  lemma {:induction false} FlaggedIff(slices: seq<Slice>, k: nat)
    ensures k in Flagged(slices) <==> exists i :: 0 <= i < |slices| && slices[i].completed && slices[i].sliceIndex == k
  {
    if slices != [] {
      FlaggedIff(slices[1..], k);
      if exists i :: 0 <= i < |slices| && slices[i].completed && slices[i].sliceIndex == k {
        var i :| 0 <= i < |slices| && slices[i].completed && slices[i].sliceIndex == k;
        assert i > 0 ==> slices[1..][i - 1] == slices[i];
      }
      if exists i :: 0 <= i < |slices[1..]| && slices[1..][i].completed && slices[1..][i].sliceIndex == k {
        var i :| 0 <= i < |slices[1..]| && slices[1..][i].completed && slices[1..][i].sliceIndex == k;
        assert slices[i + 1].completed && slices[i + 1].sliceIndex == k;
      }
    }
  }
}
