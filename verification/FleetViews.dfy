/** Fleets whose members see different latencies: what an election still guarantees, and when it elects too many. */
module FleetViews {
  import opened Coordination
  import opened Election
  import opened Lists
  import opened Machine
  import opened Ranking
  import Text

  predicate AlikeButLatency(a: PresenceMap, b: PresenceMap) {
    a.Keys == b.Keys && forall id :: id in a ==> SameBasis(a[id], b[id])
  }

  /** With no weight on latency, views that differ only in latency and bookkeeping agree on the scores. */
  lemma LatencyBlindViewsAgree(cfg: Config, a: PresenceMap, b: PresenceMap)
    requires cfg.weightLatency == 0.0 && AlikeButLatency(a, b)
    ensures SameScores(cfg, a, b)
  {
    forall id | id in a
      ensures WeightedScore(cfg, a[id]) == WeightedScore(cfg, b[id])
    {
      assert LatencyScore(a[id].latencyMs) * cfg.weightLatency == 0.0;
      assert LatencyScore(b[id].latencyMs) * cfg.weightLatency == 0.0;
    }
  }

  /** An agent that sees the shared peers with latencies of its own, itself at latency 0, has decided on that view. */
  ghost predicate DecidesOn(cfg: Config, shared: PresenceMap, view: PresenceMap, role: Role, id: string) {
    && Keyed(view) && AlikeButLatency(shared, view) && id in view && view[id].latencyMs == 0
    && role.agentId == id && Decided(cfg, view, role)
  }

  ghost predicate LatencyFleet(cfg: Config, shared: PresenceMap, views: map<string, PresenceMap>, roles: map<string, Role>) {
    && Keyed(shared) && views.Keys == shared.Keys && roles.Keys == shared.Keys
    && forall id :: id in shared ==> DecidesOn(cfg, shared, views[id], roles[id], id)
  }

  /** The map that would be seen from everywhere at once: every latency is 0. */
  function AtZero(m: PresenceMap): PresenceMap {
    map id | id in m :: m[id].(latencyMs := 0)
  }

  lemma ScoreWithin(cfg: Config, a: Record, b: Record)
    requires SameBasis(a, b) && cfg.weightLatency >= 0.0 && a.latencyMs <= b.latencyMs
    ensures WeightedScore(cfg, b) <= WeightedScore(cfg, a)
    ensures a.latencyMs == b.latencyMs ==> WeightedScore(cfg, a) == WeightedScore(cfg, b)
  {
    LatencyScoreDecreases(a.latencyMs, b.latencyMs);
    assert LatencyScore(b.latencyMs) * cfg.weightLatency <= LatencyScore(a.latencyMs) * cfg.weightLatency;
  }

  lemma AtZeroFacts(m: PresenceMap)
    requires Keyed(m)
    ensures Keyed(AtZero(m)) && AtZero(m).Keys == m.Keys && AlikeButLatency(m, AtZero(m))
    ensures |AtZero(m)| == |m|
  {
    assert |AtZero(m)| == |AtZero(m).Keys| && |m| == |m.Keys|;
  }

  /** In its own view an agent ranks no worse than in the map without latencies. */
  lemma OwnViewFlatters(cfg: Config, shared: PresenceMap, view: PresenceMap, id: string)
    requires cfg.weightLatency >= 0.0 && Keyed(shared) && Keyed(view) && AlikeButLatency(shared, view)
    requires id in shared && view[id].latencyMs == 0
    ensures id in AtZero(shared)
    ensures Rank(cfg, view, view[id]) <= Rank(cfg, AtZero(shared), AtZero(shared)[id])
    ensures Leads(cfg, AtZero(shared), id) ==> Leads(cfg, view, id)
  {
    hide WeightedScore;
    var zero := AtZero(shared);
    AtZeroFacts(shared);
    RankCountsIds(cfg, view, id);
    RankCountsIds(cfg, zero, id);
    ScoreWithin(cfg, zero[id], view[id]);
    var here, there := AheadIds(cfg, view, id), AheadIds(cfg, zero, id);
    forall k | k in here
      ensures k in there
    {
      ScoreWithin(cfg, zero[k], view[k]);
    }
    SubsetCount(here, there);
    assert |view| == |view.Keys| && |zero| == |zero.Keys|;
  }

  lemma DecidesOnFacts(cfg: Config, shared: PresenceMap, view: PresenceMap, role: Role, id: string)
    requires Keyed(shared) && DecidesOn(cfg, shared, view, role, id) && cfg.weightLatency >= 0.0
    ensures id in view && id in AtZero(shared)
    ensures role.isCoordinator <==> Leads(cfg, view, id)
    ensures role.isCoordinator ==> role.leaderRank <= Rank(cfg, AtZero(shared), AtZero(shared)[id])
    ensures Leads(cfg, AtZero(shared), id) ==> role.isCoordinator
  {
    hide Leads, Rank, Decided;
    DecidedRank(cfg, view, role);
    OwnViewFlatters(cfg, shared, view, id);
  }

  lemma FirstRankIsHeld(cfg: Config, shared: PresenceMap, views: map<string, PresenceMap>, roles: map<string, Role>)
    requires LatencyFleet(cfg, shared, views, roles) && cfg.weightLatency >= 0.0 && shared != map[]
    ensures exists id :: HoldsRank(roles, id, 0)
  {
    hide Leads, Rank, DecidesOn, Keyed, AtZero, AlikeButLatency, NoRepeats, LeaderCount;
    var zero := AtZero(shared);
    AtZeroFacts(shared);
    var ids := RankOrder(cfg, zero);
    LeaderCountFits(cfg, zero);
    assert ids[0] in zero.Keys;
    DecidesOnFacts(cfg, shared, views[ids[0]], roles[ids[0]], ids[0]);
    assert HoldsRank(roles, ids[0], 0);
  }

  /** However the latencies fall, a fleet never elects too few: the leaders of the latency-free map all lead. */
  lemma FleetNeverElectsTooFew(cfg: Config, shared: PresenceMap, views: map<string, PresenceMap>, roles: map<string, Role>)
    requires LatencyFleet(cfg, shared, views, roles) && cfg.weightLatency >= 0.0
    ensures LeaderIds(cfg, AtZero(shared)) <= Coordinators(roles)
    ensures |LeaderIds(cfg, AtZero(shared))| == LeaderCount(cfg, shared) <= |Coordinators(roles)|
    ensures shared != map[] ==> exists id :: HoldsRank(roles, id, 0)
  {
    hide Leads, Rank, DecidesOn, Keyed, AtZero, AlikeButLatency, NoRepeats;
    var zero := AtZero(shared);
    AtZeroFacts(shared);
    forall id | id in LeaderIds(cfg, zero)
      ensures id in Coordinators(roles)
    {
      assert id in zero.Keys;
      DecidesOnFacts(cfg, shared, views[id], roles[id], id);
    }
    LeadersCount(cfg, zero);
    SubsetCount(LeaderIds(cfg, zero), Coordinators(roles));
    if shared != map[] {
      FirstRankIsHeld(cfg, shared, views, roles);
    }
  }

  /** It elects exactly the leader count if and only if nobody leads in its own view alone. */
  lemma FleetElectsExactlyIff(cfg: Config, shared: PresenceMap, views: map<string, PresenceMap>, roles: map<string, Role>)
    requires LatencyFleet(cfg, shared, views, roles) && cfg.weightLatency >= 0.0
    ensures |Coordinators(roles)| == LeaderCount(cfg, shared) <==>
              forall id :: id in shared && id in views && id in views[id] && Leads(cfg, views[id], id) ==>
                id in LeaderIds(cfg, AtZero(shared))
  {
    hide Leads, Rank, DecidesOn, Keyed, AtZero, AlikeButLatency, LeaderCount, LeaderIds;
    FleetNeverElectsTooFew(cfg, shared, views, roles);
    var leaders, elected := LeaderIds(cfg, AtZero(shared)), Coordinators(roles);
    forall id | id in shared
      ensures id in views[id] && (id in elected <==> Leads(cfg, views[id], id))
    {
      DecidesOnFacts(cfg, shared, views[id], roles[id], id);
    }
    if |elected| == |leaders| {
      EqualCount(leaders, elected);
    }
    assert forall id :: id in elected ==> id in shared.Keys;
    if elected <= leaders {
      assert elected == leaders;
    }
  }

  /** The view that flatters `me` most: itself at latency 0, all others as slow as can be. */
  function Extreme(m: PresenceMap, me: string): PresenceMap {
    map id | id in m :: m[id].(latencyMs := if id == me then 0 else U64_MAX)
  }

  lemma ExtremeFacts(m: PresenceMap, me: string)
    requires Keyed(m) && me in m
    ensures Keyed(Extreme(m, me)) && Extreme(m, me).Keys == m.Keys && AlikeButLatency(m, Extreme(m, me))
    ensures |Extreme(m, me)| == |m| && Extreme(m, me)[me].latencyMs == 0
  {
    assert |Extreme(m, me)| == |Extreme(m, me).Keys| && |m| == |m.Keys|;
  }

  lemma ExtremeFlattersMost(cfg: Config, shared: PresenceMap, view: PresenceMap, id: string)
    requires cfg.weightLatency >= 0.0 && Keyed(shared) && Keyed(view) && AlikeButLatency(shared, view)
    requires id in shared && view[id].latencyMs == 0
    ensures id in Extreme(shared, id)
    ensures Leads(cfg, view, id) ==> Leads(cfg, Extreme(shared, id), id)
  {
    hide WeightedScore;
    var extreme := Extreme(shared, id);
    ExtremeFacts(shared, id);
    RankCountsIds(cfg, view, id);
    RankCountsIds(cfg, extreme, id);
    ScoreWithin(cfg, extreme[id], view[id]);
    var here, there := AheadIds(cfg, extreme, id), AheadIds(cfg, view, id);
    forall k | k in here
      ensures k in there
    {
      ScoreWithin(cfg, view[k], extreme[k]);
    }
    SubsetCount(here, there);
    assert |view| == |view.Keys|;
  }

  /** Every pattern of latencies makes this fleet elect exactly the leader count. */
  ghost predicate ElectsExactlyAlways(cfg: Config, shared: PresenceMap) {
    forall views: map<string, PresenceMap>, roles: map<string, Role> ::
      LatencyFleet(cfg, shared, views, roles) ==> |Coordinators(roles)| == LeaderCount(cfg, shared)
  }

  /** No agent outside the latency-free leaders would lead even in the view that flatters it most. */
  ghost predicate NobodyIsFlattered(cfg: Config, shared: PresenceMap) {
    forall id :: id in shared && id in Extreme(shared, id) && Leads(cfg, Extreme(shared, id), id) ==>
      id in LeaderIds(cfg, AtZero(shared))
  }

  lemma FlatteredFleet(cfg: Config, shared: PresenceMap, views: map<string, PresenceMap>, roles: map<string, Role>)
    requires LatencyFleet(cfg, shared, views, roles) && cfg.weightLatency >= 0.0 && NobodyIsFlattered(cfg, shared)
    ensures |Coordinators(roles)| == LeaderCount(cfg, shared)
  {
    forall id | id in shared && id in views[id] && Leads(cfg, views[id], id)
      ensures id in LeaderIds(cfg, AtZero(shared))
    {
      assert DecidesOn(cfg, shared, views[id], roles[id], id);
      hide Leads, Decided, LeaderIds, AtZero, Extreme;
      ExtremeFlattersMost(cfg, shared, views[id], id);
    }
    hide Leads, DecidesOn, LeaderIds, AtZero, NobodyIsFlattered;
    FleetElectsExactlyIff(cfg, shared, views, roles);
  }

  /** Every live map that holds the agent has a decision. */
  lemma DecisionExists(cfg: Config, live: PresenceMap, role: Role) returns (next: Role)
    requires Keyed(live) && role.agentId in live
    ensures Decided(cfg, live, next) && next.agentId == role.agentId
  {
    hide Leads, Rank, StrictOn, IsProxy, IsExporter, Position, SelectProxy, SelectExporter, Keyed, Decided, NoRepeats;
    ByScoreIsStrict(cfg, live);
    var r := RankingExists(ByScore(cfg), Candidates(live), Candidates(live));
    RankedNoRepeats(ByScore(cfg), Candidates(live), r);
    CandidatesCount(live);
    PositionIsRank(cfg, live, r, role.agentId);
    ProxyIsProxy(cfg, live, r);
    ExporterIsExporter(cfg, live, r);
    var leaders := r[..LeaderCount(cfg, live)];
    var c := Choice(|leaders|, Position(leaders, role.agentId), SelectProxy(r, leaders).value,
                    SelectExporter(cfg, r).value);
    NextRoleDecided(cfg, live, role, c, None, 0);
    next := NextRole(role, c, None, 0);
  }

  lemma {:induction false} DecideAll(cfg: Config, views: map<string, PresenceMap>, some: set<string>)
    returns (roles: map<string, Role>)
    requires some <= views.Keys && forall id :: id in some ==> Keyed(views[id]) && id in views[id]
    ensures roles.Keys == some
    ensures forall id :: id in some ==> roles[id].agentId == id && Decided(cfg, views[id], roles[id])
    decreases some
  {
    roles := map[];
    if some != {} {
      hide Decided, Keyed;
      var id :| id in some;
      var rest := DecideAll(cfg, views, some - {id});
      var before := Role(id, 0, false, 0, 0, 0, 0, None, None, None, false, None, None, None, None, None);
      var role := DecisionExists(cfg, views[id], before);
      roles := rest[id := role];
    }
  }

  lemma ExtremeDecides(cfg: Config, shared: PresenceMap, id: string, role: Role)
    requires Keyed(shared) && id in shared && role.agentId == id && Decided(cfg, Extreme(shared, id), role)
    ensures DecidesOn(cfg, shared, Extreme(shared, id), role, id)
  {
    ExtremeFacts(shared, id);
    hide Decided;
  }

  /** The fleet in which each agent sees all others as slow as can be. */
  lemma ExtremeFleet(cfg: Config, shared: PresenceMap) returns (views: map<string, PresenceMap>, roles: map<string, Role>)
    requires Keyed(shared)
    ensures LatencyFleet(cfg, shared, views, roles)
    ensures forall id :: id in shared ==> views[id] == Extreme(shared, id)
  {
    hide Keyed, AlikeButLatency, Decided, Extreme, DecidesOn;
    views := map id | id in shared :: Extreme(shared, id);
    forall id | id in shared
      ensures Keyed(views[id]) && id in views[id]
    {
      ExtremeFacts(shared, id);
      assert id in Extreme(shared, id).Keys;
    }
    roles := DecideAll(cfg, views, views.Keys);
    forall id | id in shared
      ensures DecidesOn(cfg, shared, views[id], roles[id], id)
    {
      ExtremeDecides(cfg, shared, id, roles[id]);
    }
  }

  lemma LatencyFleetKeys(cfg: Config, shared: PresenceMap, views: map<string, PresenceMap>, roles: map<string, Role>)
    requires LatencyFleet(cfg, shared, views, roles)
    ensures views.Keys == roles.Keys == shared.Keys
  {
  }

  /** One fleet and all its patterns of latencies: the condition is on the latency-free records alone. */
  lemma ElectsExactlyAlwaysIff(cfg: Config, shared: PresenceMap)
    requires Keyed(shared) && cfg.weightLatency >= 0.0
    ensures ElectsExactlyAlways(cfg, shared) <==> NobodyIsFlattered(cfg, shared)
  {
    hide LatencyFleet, Keyed, LeaderCount, Coordinators;
    if NobodyIsFlattered(cfg, shared) {
      hide NobodyIsFlattered;
      forall views: map<string, PresenceMap>, roles: map<string, Role> | LatencyFleet(cfg, shared, views, roles)
        ensures |Coordinators(roles)| == LeaderCount(cfg, shared)
      {
        FlatteredFleet(cfg, shared, views, roles);
      }
    } else {
      hide Leads, LeaderIds, Extreme, AtZero;
      var views, roles := ExtremeFleet(cfg, shared);
      FleetElectsExactlyIff(cfg, shared, views, roles);
      LatencyFleetKeys(cfg, shared, views, roles);
    }
  }

  /** The advantage of seeing oneself at latency 0 outweighs every other difference between two agents. */
  predicate LatencyOutweighs(cfg: Config, shared: PresenceMap) {
    forall a, b :: a in shared && b in shared ==>
      WeightedScore(cfg, shared[b].(latencyMs := U64_MAX)) < WeightedScore(cfg, shared[a].(latencyMs := 0))
  }

  lemma OutweighedLeads(cfg: Config, shared: PresenceMap, id: string)
    requires Keyed(shared) && LatencyOutweighs(cfg, shared) && id in shared
    ensures id in Extreme(shared, id) && Leads(cfg, Extreme(shared, id), id)
  {
    hide WeightedScore;
    var extreme := Extreme(shared, id);
    ExtremeFacts(shared, id);
    RankCountsIds(cfg, extreme, id);
    StringLessTotal(id, id);
    assert AheadIds(cfg, extreme, id) == {};
    assert id in extreme.Keys && |extreme| == |extreme.Keys|;
  }

  lemma OutweighedAllFlattered(cfg: Config, shared: PresenceMap)
    requires Keyed(shared) && LatencyOutweighs(cfg, shared)
    ensures NobodyIsFlattered(cfg, shared) <==> shared.Keys <= LeaderIds(cfg, AtZero(shared))
  {
    hide LatencyOutweighs, AtZero, Keyed, Leads, LeaderIds, Extreme;
    forall id | id in shared
      ensures id in Extreme(shared, id) && Leads(cfg, Extreme(shared, id), id)
    {
      OutweighedLeads(cfg, shared, id);
    }
  }

  lemma ZeroLeaders(cfg: Config, shared: PresenceMap)
    requires Keyed(shared)
    ensures Max(cfg.maxCoordinators, 1) >= 0 && |shared| == |shared.Keys|
    ensures LeaderIds(cfg, AtZero(shared)) <= shared.Keys
    ensures |LeaderIds(cfg, AtZero(shared))| == if |shared.Keys| <= Max(cfg.maxCoordinators, 1) then |shared.Keys|
                                                else Max(cfg.maxCoordinators, 1)
  {
    hide Leads, AlikeButLatency;
    AtZeroFacts(shared);
    LeadersCount(cfg, AtZero(shared));
    assert LeaderIds(cfg, AtZero(shared)) <= AtZero(shared).Keys;
    hide Keyed, AtZero, LeaderIds;
  }

  lemma AllOfThem(some: set<string>, all: set<string>, limit: nat)
    requires some <= all && |some| == if |all| <= limit then |all| else limit
    ensures all <= some <==> |all| <= limit
  {
    if |all| <= limit {
      EqualCount(some, all);
    }
    if all <= some {
      SubsetCount(all, some);
    }
  }

  /** Then only a fleet that is no larger than the leader limit always elects exactly. */
  lemma OutweighedElectsExactlyIff(cfg: Config, shared: PresenceMap)
    requires Keyed(shared) && cfg.weightLatency >= 0.0 && LatencyOutweighs(cfg, shared)
    ensures ElectsExactlyAlways(cfg, shared) <==> |shared| <= Max(cfg.maxCoordinators, 1)
  {
    hide *;
    ElectsExactlyAlwaysIff(cfg, shared);
    OutweighedAllFlattered(cfg, shared);
    ZeroLeaders(cfg, shared);
    AllOfThem(LeaderIds(cfg, AtZero(shared)), shared.Keys, Max(cfg.maxCoordinators, 1));
  }

  /** The weights that are shipped. */
  predicate Shipped(cfg: Config) {
    cfg.weightCpu == 1.0 && cfg.weightLatency == 1.5 && cfg.weightHash == 0.1 && cfg.weightCapability == 0.5
  }

  lemma ShippedScore(cfg: Config, r: Record)
    requires Shipped(cfg) && r.cpuCores <= 1_000_000 && 0.0 <= cfg.capability(r.tags) <= 1_000.0
    ensures WeightedScore(cfg, r.(latencyMs := U64_MAX)) < 1_400_000.0
    ensures WeightedScore(cfg, r.(latencyMs := 0)) >= 1_500_000.0
  {
    assert LatencyScore(0) == 1_000_000.0;
    LatencyScoreDecreases(1, U64_MAX);
    assert LatencyScore(1) == 500_000.0;
    LatencyScoreDecreases(9_999_999, U64_MAX);
    assert LatencyScore(9_999_999) == 0.1;
    assert 0.0 <= r.score as real / U64_MAX as real <= 1.0;
  }

  /** With the shipped weights, up to a million cores and tags worth up to a thousand, that is every larger fleet. */
  lemma ShippedElectsExactlyIff(cfg: Config, shared: PresenceMap)
    requires Keyed(shared) && Shipped(cfg)
    requires forall id :: id in shared ==>
               shared[id].cpuCores <= 1_000_000 && 0.0 <= cfg.capability(shared[id].tags) <= 1_000.0
    ensures ElectsExactlyAlways(cfg, shared) <==> |shared| <= Max(cfg.maxCoordinators, 1)
  {
    hide WeightedScore, ElectsExactlyAlways;
    forall a, b | a in shared && b in shared
      ensures WeightedScore(cfg, shared[b].(latencyMs := U64_MAX)) < WeightedScore(cfg, shared[a].(latencyMs := 0))
    {
      ShippedScore(cfg, shared[a]);
      ShippedScore(cfg, shared[b]);
    }
    OutweighedElectsExactlyIff(cfg, shared);
  }

  // ------------------------------------------------------- every weight splits

  const HEARD_AT: U64 := 100
  const SENT_AT: U64 := 1

  /** What a fresh agent announces about itself: one core, no tags, the hash score of its id. */
  function Announced(hash: string -> U64, id: string): Presence {
    Presence(id, Some("1"), SENT_AT, None, None, None, 1, "linux", "x86_64", [], Some(false), Some(0),
             Some(hash(id)), None)
  }

  /** What it files for itself. */
  function OwnRecord(hash: string -> U64, id: string): Record {
    Record(id, Some("1"), hash(id), 1, "linux", "x86_64", 0, None, None, None, [], false, 0, HEARD_AT, None)
  }

  /** The presence map after hearing each of `ids` once. */
  function Heard(hash: string -> U64, ids: set<string>): PresenceMap {
    map id | id in ids :: FromPresence(Announced(hash, id), HEARD_AT)
  }

  /** The live map in which the agent `me` decides, the others heard. */
  function View(cfg: Config, hash: string -> U64, ids: set<string>, me: string): PresenceMap {
    Live(Heard(hash, ids - {me}), cfg.presenceTtlMs, OwnRecord(hash, me))
  }

  /** The views of two agents differ in latency alone. */
  lemma ViewFacts(cfg: Config, hash: string -> U64, ids: set<string>, me: string)
    requires me in ids
    ensures var view := View(cfg, hash, ids, me);
            && Keyed(view) && view.Keys == ids
            && forall id :: id in ids ==>
                 view[id] == OwnRecord(hash, id).(latencyMs := if id == me then 0 else HEARD_AT - SENT_AT)
  {
  }

  lemma OwnScoresHigher(cfg: Config, hash: string -> U64, id: string, me: string)
    requires cfg.weightLatency > 0.0 && hash(id) == hash(me)
    ensures WeightedScore(cfg, OwnRecord(hash, id).(latencyMs := HEARD_AT - SENT_AT))
          < WeightedScore(cfg, OwnRecord(hash, me).(latencyMs := 0))
  {
    assert LatencyScore(99) == 10_000.0 && LatencyScore(0) == 1_000_000.0;
    assert LatencyScore(99) * cfg.weightLatency < LatencyScore(0) * cfg.weightLatency;
  }

  /** Among agents with one hash score, each ranks itself first in its own view. */
  lemma RanksItselfFirst(cfg: Config, hash: string -> U64, ids: set<string>, me: string)
    requires cfg.weightLatency > 0.0 && me in ids && forall id :: id in ids ==> hash(id) == hash(me)
    ensures var view := View(cfg, hash, ids, me);
            Keyed(view) && me in view && Rank(cfg, view, view[me]) == 0 && Leads(cfg, view, me)
  {
    var view := View(cfg, hash, ids, me);
    ViewFacts(cfg, hash, ids, me);
    StringLessTotal(me, me);
    hide View, WeightedScore, OwnRecord, StringLess;
    RankCountsIds(cfg, view, me);
    forall id | id in view && id != me
      ensures !Better(cfg, view[id], view[me])
    {
      OwnScoresHigher(cfg, hash, id, me);
    }
    assert AheadIds(cfg, view, me) == {};
    assert |view| == |view.Keys| && me in view.Keys;
  }

  /** There are as many agent ids as anyone likes, none longer than the number of bits of their count. */
  lemma {:induction false} ManyIds(n: nat, bits: nat) returns (ids: set<string>)
    requires bits > 0 && n <= Pow2(bits)
    ensures |ids| == n && forall id :: id in ids ==> |id| <= bits
    ensures forall id :: id in ids ==> Text.AllDigits(id) && Text.Value(id) < n
  {
    ids := {};
    if n > 0 {
      var fewer := ManyIds(n - 1, bits);
      Text.DecimalLength(n - 1, bits);
      ids := fewer + {Text.Decimal(n - 1)};
    }
  }

  /** No hash tells all ids apart: many of them share a value, each short enough to be announced. */
  lemma SameHash(hash: string -> U64, n: nat) returns (ids: set<string>)
    requires 0 < n <= U64_MAX + 1
    ensures |ids| == n && forall a, b :: a in ids && b in ids ==> hash(a) == hash(b)
    ensures forall id :: id in ids ==> |id| <= 128
  {
    WordSquared();
    hide Pow2;
    assert (U64_MAX + 1) * (n - 1) <= (U64_MAX + 1) * U64_MAX;
    var all := ManyIds((U64_MAX + 1) * (n - 1) + 1, 128);
    ids := Pigeonhole(id => hash(id), all, U64_MAX + 1, n);
  }

  /** The agent `id` has decided on its own view, and has put itself first. */
  ghost predicate LeadsItself(cfg: Config, hash: string -> U64, ids: set<string>, id: string, role: Role) {
    role.agentId == id && Decided(cfg, View(cfg, hash, ids, id), role) && role.isCoordinator && role.leaderRank == 0
  }

  lemma SplitRole(cfg: Config, hash: string -> U64, ids: set<string>, id: string) returns (role: Role)
    requires cfg.weightLatency > 0.0 && id in ids && forall a, b :: a in ids && b in ids ==> hash(a) == hash(b)
    ensures LeadsItself(cfg, hash, ids, id, role)
  {
    hide View, Decided, Leads, Rank, Keyed;
    RanksItselfFirst(cfg, hash, ids, id);
    var view := View(cfg, hash, ids, id);
    var before := Role(id, hash(id), false, 0, 0, 0, 0, None, None, None, false, None, None, None, None, None);
    role := DecisionExists(cfg, view, before);
    DecidedRank(cfg, view, role);
  }

  lemma {:induction false} SplitRoles(cfg: Config, hash: string -> U64, ids: set<string>, some: set<string>)
    returns (roles: map<string, Role>)
    requires cfg.weightLatency > 0.0 && some <= ids && forall a, b :: a in ids && b in ids ==> hash(a) == hash(b)
    ensures roles.Keys == some
    ensures forall id :: id in some ==>
              LeadsItself(cfg, hash, ids, id, roles[id])
    decreases some
  {
    roles := map[];
    if some != {} {
      hide LeadsItself;
      var id :| id in some;
      var rest := SplitRoles(cfg, hash, ids, some - {id});
      var role := SplitRole(cfg, hash, ids, id);
      roles := rest[id := role];
    }
  }

  /**
   * Whatever the hash of the ids and however small a positive latency weight, some fleet of one agent more than may
   * lead elects them all: agents alike but for their ids, which have just heard one another, each the first in its
   * own live map.
   */
  lemma OwnLatencyCanSplit(cfg: Config, hash: string -> U64)
    returns (ids: set<string>, views: map<string, PresenceMap>, roles: map<string, Role>)
    requires cfg.weightLatency > 0.0
    ensures |ids| == Max(cfg.maxCoordinators, 1) + 1 && views.Keys == roles.Keys == ids
    ensures forall id :: id in ids ==> |id| <= 128
    ensures forall id :: id in ids ==> views[id] == View(cfg, hash, ids, id)
    ensures forall id :: id in ids ==>
              roles[id].agentId == id && Decided(cfg, views[id], roles[id])
              && roles[id].isCoordinator && roles[id].leaderRank == 0
  {
    var n := Max(cfg.maxCoordinators, 1) + 1;
    hide View, Decided;
    ids := SameHash(hash, n);
    views := map id | id in ids :: View(cfg, hash, ids, id);
    roles := SplitRoles(cfg, hash, ids, ids);
  }

  /** The fleets whose scores are those that the hash gives. */
  predicate Hashed(hash: string -> U64, shared: PresenceMap) {
    forall id :: id in shared ==> shared[id].score == hash(id)
  }

  ghost predicate AlwaysElectsExactly(cfg: Config, hash: string -> U64) {
    forall shared: PresenceMap, views: map<string, PresenceMap>, roles: map<string, Role> ::
      LatencyFleet(cfg, shared, views, roles) && Hashed(hash, shared) ==>
        |Coordinators(roles)| == LeaderCount(cfg, shared)
  }

  ghost predicate OneController(roles: map<string, Role>) {
    exists id :: OnlyHolder(roles, id, 0)
  }

  ghost predicate AlwaysOneController(cfg: Config, hash: string -> U64) {
    forall shared: PresenceMap, views: map<string, PresenceMap>, roles: map<string, Role> ::
      LatencyFleet(cfg, shared, views, roles) && Hashed(hash, shared) && shared != map[] ==> OneController(roles)
  }

  lemma ViewIsAlike(cfg: Config, hash: string -> U64, ids: set<string>, shared: PresenceMap, id: string)
    requires id in ids && shared == map k | k in ids :: OwnRecord(hash, k)
    ensures AlikeButLatency(shared, View(cfg, hash, ids, id))
  {
    ViewFacts(cfg, hash, ids, id);
    hide View, OwnRecord;
  }

  lemma SplitDecides(cfg: Config, hash: string -> U64, ids: set<string>, shared: PresenceMap, id: string, role: Role)
    requires id in ids && shared == map k | k in ids :: OwnRecord(hash, k)
    requires role.agentId == id && Decided(cfg, View(cfg, hash, ids, id), role)
    ensures DecidesOn(cfg, shared, View(cfg, hash, ids, id), role, id)
  {
    hide View, Decided, Keyed, AlikeButLatency, OwnRecord;
    ViewFacts(cfg, hash, ids, id);
    ViewIsAlike(cfg, hash, ids, shared, id);
  }

  lemma SplitFleet(cfg: Config, hash: string -> U64, ids: set<string>, views: map<string, PresenceMap>, roles: map<string, Role>)
    returns (shared: PresenceMap)
    requires views.Keys == roles.Keys == ids
    requires forall id :: id in ids ==> views[id] == View(cfg, hash, ids, id)
    requires forall id :: id in ids ==> roles[id].agentId == id && Decided(cfg, views[id], roles[id])
    ensures LatencyFleet(cfg, shared, views, roles) && Hashed(hash, shared) && shared.Keys == ids && |shared| == |ids|
  {
    shared := map id | id in ids :: OwnRecord(hash, id);
    hide View, Decided, DecidesOn;
    forall id | id in ids
      ensures DecidesOn(cfg, shared, views[id], roles[id], id)
    {
      SplitDecides(cfg, hash, ids, shared, id, roles[id]);
    }
    assert |shared| == |shared.Keys|;
  }

  lemma WeightlessFleet(cfg: Config, shared: PresenceMap, views: map<string, PresenceMap>, roles: map<string, Role>)
    requires LatencyFleet(cfg, shared, views, roles) && cfg.weightLatency == 0.0
    ensures Fleet(cfg, shared, views, roles)
  {
    hide Decided, SameScores, AlikeButLatency;
    forall id | id in shared
      ensures SameScores(cfg, shared, views[id])
    {
      LatencyBlindViewsAgree(cfg, shared, views[id]);
    }
  }

  lemma SplitRefutes(cfg: Config, hash: string -> U64)
    requires cfg.weightLatency > 0.0
    ensures !AlwaysElectsExactly(cfg, hash) && !AlwaysOneController(cfg, hash)
  {
    hide View, Decided, LatencyFleet;
    var ids, views, roles := OwnLatencyCanSplit(cfg, hash);
    var shared := SplitFleet(cfg, hash, ids, views, roles);
    assert Coordinators(roles) == ids;
    var a :| a in ids;
    assert ids == {a} + (ids - {a});
    var b :| b in ids - {a};
    assert HoldsRank(roles, a, 0) && HoldsRank(roles, b, 0);
    assert !OneController(roles);
  }

  /**
   * Every fleet elects exactly the leader count, and exactly one controller, if and only if latency carries no
   * weight. It does not depend on how ids are hashed, nor on the other weights.
   */
  lemma AlwaysExactIff(cfg: Config, hash: string -> U64)
    requires cfg.weightLatency >= 0.0
    ensures AlwaysElectsExactly(cfg, hash) <==> cfg.weightLatency == 0.0
    ensures AlwaysOneController(cfg, hash) <==> cfg.weightLatency == 0.0
  {
    if cfg.weightLatency == 0.0 {
      forall shared: PresenceMap, views: map<string, PresenceMap>, roles: map<string, Role>
        | LatencyFleet(cfg, shared, views, roles)
        ensures |Coordinators(roles)| == LeaderCount(cfg, shared) && (shared != map[] ==> OneController(roles))
      {
        hide LatencyFleet, Coordinators, LeaderCount;
        WeightlessFleet(cfg, shared, views, roles);
        FleetElectsCount(cfg, shared, views, roles);
        if shared != map[] {
          FleetHasOneController(cfg, shared, views, roles);
        }
      }
    } else {
      SplitRefutes(cfg, hash);
    }
  }

  lemma HeardStep(hash: string -> U64, peers: seq<string>, i: nat)
    requires i < |peers|
    ensures Heard(hash, Members(peers[..i + 1]))
         == Heard(hash, Members(peers[..i]))[peers[i] := FromPresence(Announced(hash, peers[i]), HEARD_AT)]
  {
    assert peers[..i + 1] == peers[..i] + [peers[i]];
    MembersSnoc(peers[..i], peers[i]);
  }

  /** A fresh agent hears each of the peers once. */
  method HearPeers(cfg: Config, hash: string -> U64, peers: seq<string>, me: string) returns (c: Coordinator)
    requires me !in peers
    ensures fresh(c) && c.Valid() && c.cfg == cfg && !c.selfAnnounced && c.role.agentId == me
    ensures c.presence == Heard(hash, Members(peers)) && c.Own(HEARD_AT) == OwnRecord(hash, me)
  {
    assert Heard(hash, Members(peers[..0])) == map[];
    hide Heard, FromPresence, Keyed;
    c := new Coordinator(me, cfg, hash(me), 1, "linux", "x86_64", [], "1", 0);
    for i := 0 to |peers|
      invariant c.Valid() && !c.selfAnnounced && c.cfg == cfg && c.role.agentId == me
      invariant c.presence == Heard(hash, Members(peers[..i]))
      invariant c.Own(HEARD_AT) == OwnRecord(hash, me)
    {
      HeardStep(hash, peers, i);
      c.RecordPresence(Announced(hash, peers[i]), HEARD_AT);
    }
    assert peers[..|peers|] == peers;
  }

  lemma ViewOfPeers(cfg: Config, hash: string -> U64, peers: seq<string>, me: string)
    requires me !in peers
    ensures View(cfg, hash, Members(peers) + {me}, me)
         == Live(Heard(hash, Members(peers)), cfg.presenceTtlMs, OwnRecord(hash, me))
  {
    assert Members(peers) + {me} - {me} == Members(peers);
  }

  /** The split as a run of one agent: started fresh, it hears each of the others once and elects itself. */
  method ElectSelf(cfg: Config, hash: string -> U64, peers: seq<string>, me: string) returns (c: Coordinator)
    requires cfg.weightLatency > 0.0 && me !in peers && forall id :: id in peers ==> hash(id) == hash(me)
    ensures fresh(c) && c.Valid() && c.cfg == cfg && !c.selfAnnounced
    ensures LeadsItself(cfg, hash, Members(peers) + {me}, me, c.role)
  {
    hide View, Decided, Live, Leads, Rank, Keyed, OwnRecord, Heard, FromPresence, Mirror;
    c := HearPeers(cfg, hash, peers, me);
    ViewOfPeers(cfg, hash, peers, me);
    c.Evaluate(HEARD_AT);
    RanksItselfFirst(cfg, hash, Members(peers) + {me}, me);
    DecidedRank(cfg, View(cfg, hash, Members(peers) + {me}, me), c.role);
  }
}
