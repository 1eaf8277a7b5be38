/** The inventory worker: which host observations are reported as unmanaged, over whole runs. */
module Inventory {
  import opened Machine

  type Instant = nat
  type Id = string

  datatype Config = Config(agentTtl: nat, hostTtl: nat, resendTtl: nat)
  datatype Report = Report(id: Id, checkedAt: Instant, at: Instant)

  /**
   * Every event carries the clock readings that its handler takes. A cleanup reads the clock anew for every entry
   * that it looks at, between its start and its end.
   */
  datatype Event =
    | Agent(id: Id, at: Instant)
    | Host(id: Id, seenAt: Instant, checkedAt: Instant, reportedAt: Instant)
    | Cleanup(start: Instant, agentsAt: Id -> Instant, reportsAt: Id -> Instant, hostsAt: Id -> Instant, end: Instant)

  function Elapsed(since: Instant, now: Instant): nat {
    if now >= since then now - since else 0
  }

  function Purge(m: map<Id, Instant>, ttl: nat, at: Id -> Instant): map<Id, Instant> {
    map k | k in m && Elapsed(m[k], at(k)) < ttl :: m[k]
  }

  datatype State = State(agents: map<Id, Instant>, hosts: map<Id, Instant>, unmanagedReported: map<Id, Instant>)

  const EMPTY := State(map[], map[], map[])

  predicate ShouldReport(cfg: Config, s: State, id: Id, now: Instant) {
    && id !in s.agents
    && (id in s.unmanagedReported ==> Elapsed(s.unmanagedReported[id], now) >= cfg.resendTtl)
  }

  /** One turn of the loop; `purging` is false for a worker that never drops a report time. */
  function Step(cfg: Config, purging: bool, s: State, e: Event): (State, seq<Report>) {
    match e
    case Agent(id, at) => (s.(agents := s.agents[id := at]), [])
    case Host(id, seenAt, checkedAt, reportedAt) =>
      var seen := s.(hosts := s.hosts[id := seenAt]);
      if ShouldReport(cfg, s, id, checkedAt) then
        (seen.(unmanagedReported := s.unmanagedReported[id := reportedAt]), [Report(id, checkedAt, reportedAt)])
      else (seen, [])
    case Cleanup(_, agentsAt, reportsAt, hostsAt, _) =>
      (State(Purge(s.agents, cfg.agentTtl, agentsAt),
             Purge(s.hosts, cfg.hostTtl, hostsAt),
             if purging then Purge(s.unmanagedReported, cfg.resendTtl * 2, reportsAt) else s.unmanagedReported), [])
  }

  function Run(cfg: Config, purging: bool, events: seq<Event>): (State, seq<Report>) {
    if events == [] then (EMPTY, [])
    else
      var (s, log) := Run(cfg, purging, events[..|events| - 1]);
      var (s', new_) := Step(cfg, purging, s, events[|events| - 1]);
      (s', log + new_)
  }

  lemma RunSnoc(cfg: Config, purging: bool, events: seq<Event>, e: Event)
    ensures var (s, log) := Run(cfg, purging, events);
            var (s', new_) := Step(cfg, purging, s, e);
            Run(cfg, purging, events + [e]) == (s', log + new_)
  {
    assert (events + [e])[..|events|] == events;
  }

  /** The worker task's maps, changed in place by one handler call at a time. */
  class Worker {
    const cfg: Config
    var agents: map<Id, Instant>
    var hosts: map<Id, Instant>
    var unmanagedReported: map<Id, Instant>
    ghost var history: seq<Event>
    ghost var reports: seq<Report>

    ghost function Abstract(): State
      reads this
    {
      State(agents, hosts, unmanagedReported)
    }

    ghost predicate Valid()
      reads this
    {
      Run(cfg, true, history).0 == Abstract() && Run(cfg, true, history).1 == reports
    }

    constructor (cfg: Config)
      ensures Valid() && this.cfg == cfg && history == []
    {
      this.cfg := cfg;
      agents, hosts, unmanagedReported := map[], map[], map[];
      history, reports := [], [];
    }

    method RecordAgent(id: Id, at: Instant)
      requires Valid()
      modifies this
      ensures Valid() && history == old(history) + [Agent(id, at)] && reports == old(reports)
      ensures agents == old(agents)[id := at] && hosts == old(hosts) && unmanagedReported == old(unmanagedReported)
    {
      RunSnoc(cfg, true, history, Agent(id, at));
      agents := agents[id := at];
      history := history + [Agent(id, at)];
    }

    method RecordHost(id: Id, seenAt: Instant, checkedAt: Instant, reportedAt: Instant) returns (report: bool)
      requires Valid()
      modifies this
      ensures Valid() && history == old(history) + [Host(id, seenAt, checkedAt, reportedAt)]
      ensures reports == old(reports) + if report then [Report(id, checkedAt, reportedAt)] else []
      ensures report <==> id !in old(agents) && (id in old(unmanagedReported) ==>
                            checkedAt >= old(unmanagedReported)[id] + cfg.resendTtl || cfg.resendTtl == 0)
      ensures agents == old(agents) && hosts == old(hosts)[id := seenAt]
      ensures unmanagedReported == if report then old(unmanagedReported)[id := reportedAt] else old(unmanagedReported)
    {
      RunSnoc(cfg, true, history, Host(id, seenAt, checkedAt, reportedAt));
      report := false;
      hosts := hosts[id := seenAt];
      if id !in agents {
        var shouldReport := true;
        if id in unmanagedReported {
          shouldReport := Elapsed(unmanagedReported[id], checkedAt) >= cfg.resendTtl;
        }
        if shouldReport {
          unmanagedReported := unmanagedReported[id := reportedAt];
          report := true;
          reports := reports + [Report(id, checkedAt, reportedAt)];
        }
      }
      history := history + [Host(id, seenAt, checkedAt, reportedAt)];
    }

    method CleanupTick(start: Instant, agentsAt: Id -> Instant, reportsAt: Id -> Instant, hostsAt: Id -> Instant,
                       end: Instant)
      requires Valid()
      modifies this
      ensures Valid() && history == old(history) + [Cleanup(start, agentsAt, reportsAt, hostsAt, end)]
      ensures reports == old(reports)
      ensures forall id :: id in agents <==> id in old(agents) && Elapsed(old(agents)[id], agentsAt(id)) < cfg.agentTtl
      ensures forall id :: id in unmanagedReported <==>
                id in old(unmanagedReported) && Elapsed(old(unmanagedReported)[id], reportsAt(id)) < 2 * cfg.resendTtl
      ensures forall id :: id in hosts <==> id in old(hosts) && Elapsed(old(hosts)[id], hostsAt(id)) < cfg.hostTtl
      ensures forall id :: (id in agents ==> agents[id] == old(agents)[id]) && (id in hosts ==> hosts[id] == old(hosts)[id])
      ensures forall id :: id in unmanagedReported ==> unmanagedReported[id] == old(unmanagedReported)[id]
    {
      RunSnoc(cfg, true, history, Cleanup(start, agentsAt, reportsAt, hostsAt, end));
      agents := Purge(agents, cfg.agentTtl, agentsAt);
      unmanagedReported := Purge(unmanagedReported, cfg.resendTtl * 2, reportsAt);
      hosts := Purge(hosts, cfg.hostTtl, hostsAt);
      history := history + [Cleanup(start, agentsAt, reportsAt, hostsAt, end)];
    }
  }

  // -------------------------------------------------------------- the clock

  function Start(e: Event): Instant {
    match e
    case Agent(_, at) => at
    case Host(_, seenAt, _, _) => seenAt
    case Cleanup(start, _, _, _, _) => start
  }

  function End(e: Event): Instant {
    match e
    case Agent(_, at) => at
    case Host(_, _, _, reportedAt) => reportedAt
    case Cleanup(_, _, _, _, end) => end
  }

  ghost predicate Within(at: Id -> Instant, start: Instant, end: Instant) {
    forall id: Id :: start <= at(id) <= end
  }

  ghost predicate InOrder(e: Event) {
    match e
    case Agent(_, _) => true
    case Host(_, seenAt, checkedAt, reportedAt) => seenAt <= checkedAt <= reportedAt
    case Cleanup(start, agentsAt, reportsAt, hostsAt, end) =>
      start <= end && Within(agentsAt, start, end) && Within(reportsAt, start, end) && Within(hostsAt, start, end)
  }

  /** A monotone clock, read in the order of the run. */
  ghost predicate WellTimed(events: seq<Event>) {
    && (forall i :: 0 <= i < |events| ==> InOrder(events[i]))
    && (forall i, j :: 0 <= i < j < |events| ==> End(events[i]) <= Start(events[j]))
  }

  /** A time no earlier than every reading so far. */
  predicate NotBefore(events: seq<Event>, now: Instant) {
    forall i :: 0 <= i < |events| ==> End(events[i]) <= now
  }

  // ------------------------------------------------- purging changes nothing

  /** The purged map lost only report times old enough to be ignored. */
  predicate Forgets(cfg: Config, purged: State, kept: State, now: Instant) {
    && purged.agents == kept.agents
    && purged.hosts == kept.hosts
    && (forall id :: id in purged.unmanagedReported ==>
          id in kept.unmanagedReported && purged.unmanagedReported[id] == kept.unmanagedReported[id])
    && (forall id :: id in kept.unmanagedReported ==> kept.unmanagedReported[id] <= now)
    && (forall id :: id in kept.unmanagedReported && id !in purged.unmanagedReported ==>
          kept.unmanagedReported[id] + cfg.resendTtl <= now)
  }

  lemma ForgetsStep(cfg: Config, purged: State, kept: State, e: Event, now: Instant)
    requires Forgets(cfg, purged, kept, now) && now <= Start(e) && InOrder(e)
    ensures Forgets(cfg, Step(cfg, true, purged, e).0, Step(cfg, false, kept, e).0, End(e))
    ensures Step(cfg, true, purged, e).1 == Step(cfg, false, kept, e).1
  {
  }

  lemma {:induction false} ForgetsRun(cfg: Config, events: seq<Event>, now: Instant)
    requires WellTimed(events) && NotBefore(events, now)
    ensures Forgets(cfg, Run(cfg, true, events).0, Run(cfg, false, events).0, now)
    ensures Run(cfg, true, events).1 == Run(cfg, false, events).1
  {
    if events != [] {
      var front, e := events[..|events| - 1], events[|events| - 1];
      ForgetsRun(cfg, front, Start(e));
      ForgetsStep(cfg, Run(cfg, true, front).0, Run(cfg, false, front).0, e, Start(e));
    }
  }

  /** A worker that drops old report times emits the same reports as one that keeps them all. */
  lemma PurgeIsUnobservable(cfg: Config, events: seq<Event>)
    requires WellTimed(events)
    ensures Run(cfg, true, events).1 == Run(cfg, false, events).1
  {
    var now := if events == [] then 0 else End(events[|events| - 1]);
    assert NotBefore(events, now);
    ForgetsRun(cfg, events, now);
  }

  // ------------------------------------------ what a run reports, from its trace

  /** When the last agent record for `id` was made, if any. */
  function LastAgent(events: seq<Event>, id: Id): Option<Instant> {
    if events == [] then None
    else
      var e := events[|events| - 1];
      if e.Agent? && e.id == id then Some(e.at) else LastAgent(events[..|events| - 1], id)
  }

  /** `id` has an agent record that no cleanup since found expired. */
  predicate AgentKnown(cfg: Config, events: seq<Event>, id: Id) {
    if events == [] then false
    else
      var front, e := events[..|events| - 1], events[|events| - 1];
      match e
      case Agent(other, _) => other == id || AgentKnown(cfg, front, id)
      case Host(_, _, _, _) => AgentKnown(cfg, front, id)
      case Cleanup(_, agentsAt, _, _, _) =>
        AgentKnown(cfg, front, id) && LastAgent(front, id).Some? &&
        Elapsed(LastAgent(front, id).value, agentsAt(id)) < cfg.agentTtl
  }

  function LastReport(log: seq<Report>, id: Id): Option<Instant> {
    if log == [] then None
    else if log[|log| - 1].id == id then Some(log[|log| - 1].at)
    else LastReport(log[..|log| - 1], id)
  }

  lemma {:induction false} AgentsMapIsKnown(cfg: Config, purging: bool, events: seq<Event>, id: Id)
    ensures var agents := Run(cfg, purging, events).0.agents;
            && (id in agents <==> AgentKnown(cfg, events, id))
            && (id in agents ==> LastAgent(events, id) == Some(agents[id]))
  {
    if events != [] {
      AgentsMapIsKnown(cfg, purging, events[..|events| - 1], id);
    }
  }

  lemma {:induction false} ReportMapIsLastReport(cfg: Config, events: seq<Event>, id: Id)
    ensures var (s, log) := Run(cfg, false, events);
            LastReport(log, id) == if id in s.unmanagedReported then Some(s.unmanagedReported[id]) else None
  {
    if events != [] {
      var front, e := events[..|events| - 1], events[|events| - 1];
      ReportMapIsLastReport(cfg, front, id);
      var (s, log) := Run(cfg, false, front);
      var new_ := Step(cfg, false, s, e).1;
      assert new_ == [] ==> log + new_ == log;
      assert new_ != [] ==> (log + new_)[..|log|] == log;
    }
  }

  lemma WellTimedPrefix(events: seq<Event>, n: nat)
    requires n <= |events| && WellTimed(events)
    ensures WellTimed(events[..n])
    ensures n < |events| ==> NotBefore(events[..n], Start(events[n]))
  {
  }

  lemma {:induction false} ReportTimesPast(cfg: Config, events: seq<Event>, id: Id, now: Instant)
    requires WellTimed(events) && NotBefore(events, now)
    ensures var reported := Run(cfg, false, events).0.unmanagedReported;
            id in reported ==> reported[id] <= now
  {
    if events != [] {
      var n := |events| - 1;
      WellTimedPrefix(events, n);
      ReportTimesPast(cfg, events[..n], id, Start(events[n]));
      assert InOrder(events[n]) && End(events[n]) <= now;
    }
  }

  /**
   * When a host observation is reported, stated on the trace alone: no unexpired-at-cleanup agent record, and no
   * report of that host within the resend time. The purge interval does not appear.
   */
  lemma ReportedIff(cfg: Config, events: seq<Event>, id: Id, seenAt: Instant, checkedAt: Instant, reportedAt: Instant)
    requires WellTimed(events + [Host(id, seenAt, checkedAt, reportedAt)])
    ensures var (_, log) := Run(cfg, true, events);
            var (_, log') := Run(cfg, true, events + [Host(id, seenAt, checkedAt, reportedAt)]);
            var last := LastReport(log, id);
            log' == log + if !AgentKnown(cfg, events, id) && (last.Some? ==> last.value + cfg.resendTtl <= checkedAt)
                          then [Report(id, checkedAt, reportedAt)] else []
  {
    var all := events + [Host(id, seenAt, checkedAt, reportedAt)];
    assert all[..|events|] == events;
    WellTimedPrefix(all, |events|);
    PurgeIsUnobservable(cfg, events);
    PurgeIsUnobservable(cfg, all);
    AgentsMapIsKnown(cfg, false, events, id);
    ReportMapIsLastReport(cfg, events, id);
    ReportTimesPast(cfg, events, id, seenAt);
  }

  // --------------------------------------------------------------- guarantees

  lemma {:induction false} LastReportIsLatest(log: seq<Report>, i: nat)
    requires i < |log|
    ensures LastReport(log, log[i].id).Some?
    ensures exists k :: i <= k < |log| && log[k].id == log[i].id && LastReport(log, log[i].id).value == log[k].at
  {
    if log[|log| - 1].id != log[i].id {
      LastReportIsLatest(log[..|log| - 1], i);
      var k :| i <= k < |log| - 1 && log[k].id == log[i].id
               && LastReport(log[..|log| - 1], log[i].id).value == log[k].at;
      assert log[k].id == log[i].id;
    }
  }

  /** Two reports for one host are at least the resend time apart, measured up to the later check. */
  predicate Spaced(cfg: Config, log: seq<Report>) {
    forall i, j :: 0 <= i < j < |log| && log[i].id == log[j].id ==> log[i].at + cfg.resendTtl <= log[j].checkedAt <= log[j].at
  }

  lemma SpacedSnoc(cfg: Config, log: seq<Report>, r: Report)
    requires Spaced(cfg, log) && r.checkedAt <= r.at
    requires LastReport(log, r.id).Some? ==> LastReport(log, r.id).value + cfg.resendTtl <= r.checkedAt
    ensures Spaced(cfg, log + [r])
  {
    forall i | 0 <= i < |log| && log[i].id == r.id
      ensures log[i].at + cfg.resendTtl <= r.checkedAt
    {
      LastReportIsLatest(log, i);
      var k :| i <= k < |log| && log[k].id == log[i].id && LastReport(log, r.id).value == log[k].at;
      if i < k {
        assert log[i].at + cfg.resendTtl <= log[k].checkedAt <= log[k].at;
      }
    }
  }

  lemma {:induction false} ReportsAreSpaced(cfg: Config, events: seq<Event>)
    requires WellTimed(events)
    ensures Spaced(cfg, Run(cfg, true, events).1)
    decreases |events|
  {
    if events != [] {
      var n := |events| - 1;
      var front, e := events[..n], events[n];
      var log := Run(cfg, true, front).1;
      WellTimedPrefix(events, n);
      ReportsAreSpaced(cfg, front);
      assert events == front + [e] && InOrder(e);
      RunSnoc(cfg, true, front, e);
      hide Spaced, Run, WellTimed, AgentKnown, LastReport;
      if e.Host? {
        ReportedIff(cfg, front, e.id, e.seenAt, e.checkedAt, e.reportedAt);
        var last := LastReport(log, e.id);
        if last.Some? ==> last.value + cfg.resendTtl <= e.checkedAt {
          SpacedSnoc(cfg, log, Report(e.id, e.checkedAt, e.reportedAt));
        }
      }
      assert log + [] == log;
    }
  }

  lemma {:induction false} FreshAgentIsKnown(cfg: Config, events: seq<Event>, i: nat, now: Instant)
    requires i < |events| && events[i].Agent? && WellTimed(events) && NotBefore(events, now)
    requires now < events[i].at + cfg.agentTtl
    ensures AgentKnown(cfg, events, events[i].id)
    ensures LastAgent(events, events[i].id).Some? && events[i].at <= LastAgent(events, events[i].id).value <= now
    decreases |events|
  {
    var n := |events| - 1;
    assert End(events[n]) <= now;
    if i < n {
      var id := events[i].id;
      WellTimedPrefix(events, n);
      assert InOrder(events[n]);
      FreshAgentIsKnown(cfg, events[..n], i, Start(events[n]));
    }
  }

  /** No host is reported while its agent's last record is younger than the agent TTL. */
  lemma NoReportForLiveAgent(cfg: Config, events: seq<Event>, i: nat, seenAt: Instant, checkedAt: Instant, reportedAt: Instant)
    requires i < |events| && events[i].Agent?
    requires WellTimed(events + [Host(events[i].id, seenAt, checkedAt, reportedAt)])
    requires checkedAt < events[i].at + cfg.agentTtl
    ensures Run(cfg, true, events + [Host(events[i].id, seenAt, checkedAt, reportedAt)]).1 == Run(cfg, true, events).1
  {
    var id := events[i].id;
    var all := events + [Host(id, seenAt, checkedAt, reportedAt)];
    assert all[..|events|] == events;
    WellTimedPrefix(all, |events|);
    assert InOrder(all[|events|]);
    FreshAgentIsKnown(cfg, events, i, seenAt);
    ReportedIff(cfg, events, id, seenAt, checkedAt, reportedAt);
  }

  lemma {:induction false} CleanupsKeepAgent(cfg: Config, id: Id, at: Instant, cleanups: seq<Event>)
    requires forall i :: 0 <= i < |cleanups| ==>
               cleanups[i].Cleanup? && Elapsed(at, cleanups[i].agentsAt(id)) < cfg.agentTtl
    ensures LastAgent([Agent(id, at)] + cleanups, id) == Some(at) && AgentKnown(cfg, [Agent(id, at)] + cleanups, id)
  {
    var all := [Agent(id, at)] + cleanups;
    if cleanups == [] {
      assert all == [Agent(id, at)];
    } else {
      var n := |cleanups| - 1;
      CleanupsKeepAgent(cfg, id, at, cleanups[..n]);
      assert all[..|all| - 1] == [Agent(id, at)] + cleanups[..n];
    }
  }

  /**
   * The converse fails: however late, and after however many cleanups, an expired agent record keeps its host from
   * being reported as long as no cleanup has found it expired.
   */
  lemma ExpiredAgentStillSuppresses(cfg: Config, id: Id, at: Instant, cleanups: seq<Event>, late: Event)
    requires late.Host? && late.id == id
    requires WellTimed([Agent(id, at)] + cleanups + [late])
    requires forall i :: 0 <= i < |cleanups| ==>
               cleanups[i].Cleanup? && Elapsed(at, cleanups[i].agentsAt(id)) < cfg.agentTtl
    ensures Run(cfg, true, [Agent(id, at)] + cleanups + [late]).1 == Run(cfg, true, [Agent(id, at)] + cleanups).1
  {
    CleanupsKeepAgent(cfg, id, at, cleanups);
    ReportedIff(cfg, [Agent(id, at)] + cleanups, id, late.seenAt, late.checkedAt, late.reportedAt);
  }

  /** Such a run: the last cleanup comes just before the record expires, the observation just after. */
  lemma ExpiredBetweenCleanups(cfg: Config, id: Id)
    requires cfg.agentTtl > 0
    ensures var before, late := cfg.agentTtl - 1, cfg.agentTtl;
            var tick := Cleanup(before, _ => before, _ => before, _ => before, before);
            var run := [Agent(id, 0)] + [tick] + [Host(id, late, late, late)];
            WellTimed(run) && Run(cfg, true, run).1 == Run(cfg, true, [Agent(id, 0)] + [tick]).1
  {
    var before, late := cfg.agentTtl - 1, cfg.agentTtl;
    var tick := Cleanup(before, _ => before, _ => before, _ => before, before);
    var run := [Agent(id, 0)] + [tick] + [Host(id, late, late, late)];
    assert InOrder(tick);
    assert WellTimed(run);
    assert Elapsed(0, tick.agentsAt(id)) < cfg.agentTtl;
    hide Run, WellTimed, InOrder, Elapsed;
    ExpiredAgentStillSuppresses(cfg, id, 0, [tick], Host(id, late, late, late));
  }
}
