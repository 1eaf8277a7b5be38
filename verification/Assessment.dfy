/** The assessment client: fetching plans, choosing the due slice, merging progress, backing off on failure. */
module Assessment {
  import opened Lists
  import opened Machine
  import opened Planning
  import Sorted = SortedLists
  import Text

  const MIN_RETRY_BACKOFF_MS: nat := 15_000
  const MAX_RETRY_BACKOFF_MS: nat := 300_000

  datatype RequestErrorKind = Transport | Http | Parse | Semantic | Auth
  datatype RequestError = RequestError(kind: RequestErrorKind, status: Option<U16>)

  predicate Retryable(e: RequestError) {
    || e.kind == Transport || e.kind == Parse
    || (e.status.Some? && (e.status.value == 408 || e.status.value == 429 || e.status.value >= 500))
  }

  datatype Progress = Progress(
    lastPlanMs: U64, cycleStartMs: U64, cycleDeadlineMs: U64, slotStartMs: U64, slotEndMs: U64,
    slotIndex: nat, slotCount: nat, sliceCount: nat, completedSlices: seq<nat>, completedSliceCount: nat,
    protocolVersion: U64, planToken: string)

  datatype Response = Response(
    agentId: string, requestId: string, protocolVersion: U64, accepted: bool, disposition: string,
    plan: Plan, progress: Progress)

  /** Settings of one agent; `hash` stands for the hash of agent id, phase and streak that jitters the backoff. */
  datatype Config = Config(agentId: string, pollIntervalMs: U64, hash: (string, U32) -> U64)

  datatype Client = Client(
    plan: Option<Plan>, progress: Option<Progress>, lastPlanFetchMs: U64, nextPlanAttemptMs: U64,
    nextReportAttemptMs: U64, planFailureStreak: U32, reportFailureStreak: U32)

  const INITIAL := Client(None, None, 0, 0, 0, 0, 0)

  // ---------------------------------------------------------------- backoff

  function BackoffBase(retryable: bool): nat {
    if retryable then MIN_RETRY_BACKOFF_MS else 2 * MIN_RETRY_BACKOFF_MS
  }

  function ScaledBackoff(streak: U32, retryable: bool): nat {
    Min(BackoffBase(retryable) * Pow2(Min(Max(streak - 1, 0), 5)), MAX_RETRY_BACKOFF_MS)
  }

  function RetryBackoffMs(streak: U32, retryable: bool, hash: U64): U64 {
    ScaledBackoff(streak, retryable) + hash % Max(BackoffBase(retryable) / 3, 1)
  }

  lemma Pow2Small(k: nat)
    requires k <= 5
    ensures Pow2(k) == if k == 0 then 1 else if k == 1 then 2 else if k == 2 then 4 else if k == 3 then 8
                       else if k == 4 then 16 else 32
  {
    assert Pow2(1) == 2;
    assert Pow2(3) == 8;
  }

  /** Whatever the jitter, the delay lies between the base and the cap plus a third of the base. */
  lemma BackoffBounds(streak: U32, retryable: bool, hash: U64)
    ensures BackoffBase(retryable) <= RetryBackoffMs(streak, retryable, hash)
              < MAX_RETRY_BACKOFF_MS + BackoffBase(retryable) / 3
  {
    Pow2Small(Min(Max(streak - 1, 0), 5));
  }

  /** Each further failure lengthens the delay until the cap is reached, even for the least lucky pair of jitters. */
  lemma BackoffGrows(streak: U32, longer: U32, retryable: bool, hash: U64, hash': U64)
    requires 1 <= streak < longer && ScaledBackoff(streak, retryable) < MAX_RETRY_BACKOFF_MS
    ensures RetryBackoffMs(streak, retryable, hash) < RetryBackoffMs(longer, retryable, hash')
  {
    Pow2Small(Min(streak - 1, 5));
    Pow2Small(Min(longer - 1, 5));
  }

  /** The cap is reached from the sixth failure on, and with a non-retryable error from the fifth. */
  lemma BackoffCapIff(streak: U32, retryable: bool)
    ensures ScaledBackoff(streak, retryable) == MAX_RETRY_BACKOFF_MS <==> streak >= if retryable then 6 else 5
  {
    Pow2Small(Min(Max(streak - 1, 0), 5));
  }

  // --------------------------------------------------------------- progress

  function Flagged(slices: seq<Slice>): seq<nat> {
    if slices == [] then []
    else (if slices[0].completed then [slices[0].sliceIndex] else []) + Flagged(slices[1..])
  }

  function Completed(c: Client): set<nat> {
    if c.progress.None? then {} else set k | k in c.progress.value.completedSlices
  }

  function Ingest(progress: Option<Progress>, p: Plan): Progress {
    var completed :=
      if progress.None? then Flagged(p.slices)
      else Sorted.SortDedup(Flagged(p.slices) + progress.value.completedSlices);
    Progress(p.generatedEpochMs, p.cycleStartMs, p.cycleDeadlineMs, p.slotStartMs, p.slotEndMs,
             p.slotIndex, p.slotCount, p.sliceCount, completed,
             if progress.None? then p.completedSliceCount else |completed|,
             Max(p.protocolVersion, 1), p.planToken)
  }

  lemma {:induction false} IncreasingCount(s: seq<nat>)
    requires Sorted.Increasing(s)
    ensures |Members(s)| == |s|
  {
    if s == [] {
      assert Members(s) == {};
    } else {
      var front, last := s[..|s| - 1], s[|s| - 1];
      IncreasingCount(front);
      assert s == front + [last];
      assert Members(s) == Members(front) + {last};
      assert forall i :: 0 <= i < |front| ==> front[i] < last;
    }
  }

  /** Taking in a plan keeps every completed slice and adds the ones the plan marks. */
  lemma IngestKeepsCompleted(c: Client, p: Plan)
    ensures var after := c.(plan := Some(p), progress := Some(Ingest(c.progress, p)));
            Completed(after) == Completed(c) + set k | k in Flagged(p.slices)
    ensures c.progress.Some? ==>
              Sorted.Increasing(Ingest(c.progress, p).completedSlices)
              && Ingest(c.progress, p).completedSliceCount
                 == |Completed(c) + set k | k in Flagged(p.slices)|
  {
    if c.progress.Some? {
      var all := Flagged(p.slices) + c.progress.value.completedSlices;
      Sorted.SortDedupIsIncreasing(all);
      var merged := Sorted.SortDedup(all);
      forall k
        ensures k in merged <==> k in Members(all)
      {
        assert k in Members(merged) <==> k in Members(all);
      }
      var union := Completed(c) + set k | k in Flagged(p.slices);
      assert union == Members(merged);
      IncreasingCount(merged);
    }
  }

  // ------------------------------------------------------------ what is due

  /** The first slice in plan order that is not completed and has started. */
  function DuePosition(slices: seq<Slice>, completed: set<nat>, now: U64): (r: Option<nat>)
    ensures r.Some? ==> r.value < |slices| && slices[r.value].sliceIndex !in completed && now >= slices[r.value].startMs
    ensures r.Some? ==> forall j :: 0 <= j < r.value ==> slices[j].sliceIndex in completed || now < slices[j].startMs
    ensures r.None? ==> forall j :: 0 <= j < |slices| ==> slices[j].sliceIndex in completed || now < slices[j].startMs
  {
    if slices == [] then None
    else if slices[0].sliceIndex !in completed && now >= slices[0].startMs then Some(0)
    else
      var rest := DuePosition(slices[1..], completed, now);
      if rest.Some? then
        assert forall j :: 0 < j < rest.value + 1 ==> slices[j] == slices[1..][j - 1];
        Some(rest.value + 1)
      else
        assert forall j :: 0 < j < |slices| ==> slices[j] == slices[1..][j - 1];
        None
  }

  function Due(c: Client, now: U64): (r: Option<nat>)
    ensures r.Some? ==> c.plan.Some? && r.value < |c.plan.value.slices|
  {
    if c.plan.None? || now < c.plan.value.slotStartMs || now > c.plan.value.slotEndMs then None
    else DuePosition(c.plan.value.slices, Completed(c), now)
  }

  /** In a valid plan the due slice is the first one not completed: an earlier slice cannot be waiting for its start. */
  lemma DueIsFirstIncomplete(agentId: string, p: Plan, completed: set<nat>, now: U64)
    requires ValidPlan(agentId, p)
    ensures var due := DuePosition(p.slices, completed, now);
            && (due.Some? ==> forall j :: 0 <= j < due.value ==> p.slices[j].sliceIndex in completed)
            && (due.None? <==> forall j :: 0 <= j < |p.slices| && p.slices[j].startMs <= now ==>
                                 p.slices[j].sliceIndex in completed)
  {
    ValidParts(agentId, p);
    hide ValidPlan, DuePosition;
    var due := DuePosition(p.slices, completed, now);
    if due.Some? {
      forall j | 0 <= j < due.value
        ensures p.slices[j].sliceIndex in completed
      {
        assert p.slices[j].startMs < p.slices[j].endMs <= p.slices[due.value].startMs;
      }
    }
  }

  // ------------------------------------------------------------ the two calls

  predicate PlanRefreshDue(cfg: Config, c: Client, now: U64) {
    c.plan.None? || now > c.plan.value.cycleDeadlineMs || SatSub(now, c.lastPlanFetchMs) >= cfg.pollIntervalMs
  }

  function Bump(streak: U32): U32 {
    if streak < U32_MAX then streak + 1 else U32_MAX
  }

  function PlanFailed(cfg: Config, c: Client, retryable: bool, finishedAt: U64): Client {
    var streak := Bump(c.planFailureStreak);
    c.(planFailureStreak := streak,
       nextPlanAttemptMs := SatAdd(finishedAt, RetryBackoffMs(streak, retryable, cfg.hash("plan_fetch", streak))))
  }

  function FetchPlan(cfg: Config, c: Client, reply: Result<Plan, RequestError>, finishedAt: U64): Client {
    match reply
    case Err(e) => PlanFailed(cfg, c, Retryable(e), finishedAt)
    case Ok(p) =>
      if !ValidPlan(cfg.agentId, p) then PlanFailed(cfg, c, false, finishedAt)
      else c.(lastPlanFetchMs := finishedAt, nextPlanAttemptMs := SatAdd(finishedAt, cfg.pollIntervalMs),
              planFailureStreak := 0, plan := Some(p), progress := Some(Ingest(c.progress, p)))
  }

  function ReportFailed(cfg: Config, c: Client, retryable: bool, finishedAt: U64): Client {
    var streak := Bump(c.reportFailureStreak);
    c.(reportFailureStreak := streak,
       nextReportAttemptMs := SatAdd(finishedAt, RetryBackoffMs(streak, retryable, cfg.hash("report", streak))))
  }

  predicate ValidResponse(cfg: Config, r: Response, requestId: string) {
    && (Text.Blank(r.agentId) || r.agentId == cfg.agentId)
    && (r.protocolVersion >= ASSESSMENT_PROTOCOL_VERSION ==> r.requestId == requestId)
    && ValidPlan(cfg.agentId, r.plan)
    && (r.progress.sliceCount > 0 ==> r.progress.sliceCount == r.plan.sliceCount)
    && (r.progress.slotCount > 0 ==> r.progress.slotCount == r.plan.slotCount)
  }

  function ExecuteSlice(cfg: Config, c: Client, reply: Result<Response, RequestError>, requestId: string, finishedAt: U64)
    : Client
  {
    match reply
    case Err(e) => ReportFailed(cfg, c, Retryable(e), finishedAt)
    case Ok(r) =>
      if !ValidResponse(cfg, r, requestId) then ReportFailed(cfg, c, false, finishedAt)
      else
        var applied := c.(plan := Some(r.plan), progress := Some(r.progress));
        if !r.accepted && r.disposition != "stale_plan" then ReportFailed(cfg, applied, false, finishedAt)
        else applied.(reportFailureStreak := 0, nextReportAttemptMs := 0)
  }

  // -------------------------------------------------------------- the runtime

  lemma PushIfMissing(completed: seq<nat>, flagged: seq<nat>, known: seq<nat>, i: nat)
    requires i < |known| && Members(completed) == Members(flagged) + Members(known[..i])
    ensures Members(if known[i] in completed then completed else completed + [known[i]])
         == Members(flagged) + Members(known[..i + 1])
  {
    assert known[..i + 1] == known[..i] + [known[i]];
    MembersSnoc(known[..i], known[i]);
    MembersSnoc(completed, known[i]);
    assert known[i] in completed <==> known[i] in Members(completed);
  }

  /** Pushes the known slices that are not flagged, one at a time, then sorts and drops repeats. */
  method MergeCompleted(flagged: seq<nat>, known: seq<nat>) returns (merged: seq<nat>)
    ensures merged == Sorted.SortDedup(flagged + known)
  {
    var completed := flagged;
    for i := 0 to |known|
      invariant Members(completed) == Members(flagged) + Members(known[..i])
    {
      PushIfMissing(completed, flagged, known, i);
      hide Members;
      if known[i] !in completed {
        completed := completed + [known[i]];
      }
    }
    assert known[..|known|] == known;
    MembersConcat(flagged, known);
    hide Members;
    Sorted.SortDedupDependsOnMembers(completed, flagged + known);
    merged := Sorted.SortDedup(completed);
  }

  /** What a tick meets: its time, and the replies and finishing times of the calls it may make. */
  datatype Tick = Tick(
    now: U64, planReply: Result<Plan, RequestError>, planDoneAt: U64,
    reportReply: Result<Response, RequestError>, requestId: string, reportDoneAt: U64)

  predicate Fetches(cfg: Config, c: Client, t: Tick) {
    PlanRefreshDue(cfg, c, t.now) && t.now >= c.nextPlanAttemptMs
  }

  function AfterFetch(cfg: Config, c: Client, t: Tick): Client {
    if Fetches(cfg, c, t) then FetchPlan(cfg, c, t.planReply, t.planDoneAt) else c
  }

  predicate Executes(cfg: Config, c: Client, t: Tick) {
    var d := AfterFetch(cfg, c, t);
    Due(d, t.now).Some? && t.now >= d.nextReportAttemptMs
  }

  function AfterTick(cfg: Config, c: Client, t: Tick): Client {
    var d := AfterFetch(cfg, c, t);
    if Executes(cfg, c, t) then ExecuteSlice(cfg, d, t.reportReply, t.requestId, t.reportDoneAt) else d
  }

  class AssessmentRuntime {
    const cfg: Config
    var plan: Option<Plan>
    var progress: Option<Progress>
    var lastPlanFetchMs: U64
    var nextPlanAttemptMs: U64
    var nextReportAttemptMs: U64
    var planFailureStreak: U32
    var reportFailureStreak: U32

    function State(): Client
      reads this
    {
      Client(plan, progress, lastPlanFetchMs, nextPlanAttemptMs, nextReportAttemptMs, planFailureStreak, reportFailureStreak)
    }

    constructor (cfg: Config)
      ensures State() == INITIAL && this.cfg == cfg
    {
      this.cfg := cfg;
      plan, progress, lastPlanFetchMs, nextPlanAttemptMs, nextReportAttemptMs := None, None, 0, 0, 0;
      planFailureStreak, reportFailureStreak := 0, 0;
    }

    /** Merges the slices a plan marks completed into the progress, one push at a time. */
    method IngestPlan(p: Plan)
      modifies this`plan, this`progress
      ensures plan == Some(p) && progress == Some(Ingest(old(progress), p))
    {
      var completed := Flagged(p.slices);
      var count := p.completedSliceCount;
      if progress.Some? {
        completed := MergeCompleted(completed, progress.value.completedSlices);
        count := |completed|;
      }
      progress := Some(Progress(p.generatedEpochMs, p.cycleStartMs, p.cycleDeadlineMs, p.slotStartMs, p.slotEndMs,
                                p.slotIndex, p.slotCount, p.sliceCount, completed, count,
                                Max(p.protocolVersion, 1), p.planToken));
      plan := Some(p);
    }

    method Fetch(reply: Result<Plan, RequestError>, finishedAt: U64)
      modifies this
      ensures State() == FetchPlan(cfg, old(State()), reply, finishedAt)
    {
      var retryable := false;
      if reply.Ok? {
        var e := ValidatePlan(cfg.agentId, reply.value);
        if e.None? {
          lastPlanFetchMs := finishedAt;
          nextPlanAttemptMs := SatAdd(finishedAt, cfg.pollIntervalMs);
          planFailureStreak := 0;
          IngestPlan(reply.value);
          return;
        }
      } else {
        retryable := Retryable(reply.error);
      }
      planFailureStreak := Bump(planFailureStreak);
      nextPlanAttemptMs :=
        SatAdd(finishedAt, RetryBackoffMs(planFailureStreak, retryable, cfg.hash("plan_fetch", planFailureStreak)));
    }

    method Execute(reply: Result<Response, RequestError>, requestId: string, finishedAt: U64)
      modifies this
      ensures State() == ExecuteSlice(cfg, old(State()), reply, requestId, finishedAt)
    {
      var retryable := false;
      if reply.Ok? {
        var valid := ValidateResponse(reply.value, requestId);
        if valid {
          plan, progress := Some(reply.value.plan), Some(reply.value.progress);
          if reply.value.accepted || reply.value.disposition == "stale_plan" {
            reportFailureStreak, nextReportAttemptMs := 0, 0;
            return;
          }
        }
      } else {
        retryable := Retryable(reply.error);
      }
      reportFailureStreak := Bump(reportFailureStreak);
      nextReportAttemptMs :=
        SatAdd(finishedAt, RetryBackoffMs(reportFailureStreak, retryable, cfg.hash("report", reportFailureStreak)));
    }

    method ValidateResponse(r: Response, requestId: string) returns (ok: bool)
      ensures ok <==> ValidResponse(cfg, r, requestId)
    {
      if !Text.Blank(r.agentId) && r.agentId != cfg.agentId {
        return false;
      }
      if r.protocolVersion >= ASSESSMENT_PROTOCOL_VERSION && r.requestId != requestId {
        return false;
      }
      var e := ValidatePlan(cfg.agentId, r.plan);
      if e.Some? {
        return false;
      }
      if r.progress.sliceCount > 0 && r.progress.sliceCount != r.plan.sliceCount {
        return false;
      }
      return !(r.progress.slotCount > 0 && r.progress.slotCount != r.plan.slotCount);
    }

    /** One turn of the loop: perhaps a plan fetch, then perhaps one slice. */
    method RunTick(t: Tick)
      modifies this
      ensures State() == AfterTick(cfg, old(State()), t)
    {
      hide FetchPlan, ExecuteSlice, Due;
      if PlanRefreshDue(cfg, State(), t.now) && t.now >= nextPlanAttemptMs {
        Fetch(t.planReply, t.planDoneAt);
      }
      if Due(State(), t.now).Some? && t.now >= nextReportAttemptMs {
        Execute(t.reportReply, t.requestId, t.reportDoneAt);
      }
    }
  }
}
