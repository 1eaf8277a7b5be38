/** What the elections of a whole fleet have in common, and how a record's numbers move its rank. */
module Election {
  import opened Lists
  import opened Machine
  import opened Ranking
  import opened Coordination

  // ----------------------------------------------------------- ranks by id

  ghost function AheadIds(cfg: Config, m: PresenceMap, id: string): set<string>
    requires id in m
  {
    set k | k in m && Better(cfg, m[k], m[id])
  }

  lemma RankCountsIds(cfg: Config, m: PresenceMap, id: string)
    requires Keyed(m) && id in m
    ensures Rank(cfg, m, m[id]) == |AheadIds(cfg, m, id)|
  {
    var ids := AheadIds(cfg, m, id);
    var ahead := map k | k in ids :: m[k];
    assert ahead.Keys == ids;
    CandidatesCount(ahead);
    var s := Ahead(ByScore(cfg), Candidates(m), m[id]);
    forall x
      ensures x in s <==> x in Candidates(ahead)
    {
      if x in s {
        var k :| k in m && m[k] == x;
        assert ByScore(cfg)(x, m[id]);
        assert k in ids;
      }
      if x in Candidates(ahead) {
        var k :| k in ahead && ahead[k] == x;
        assert m[k] in Candidates(m);
      }
    }
    assert s == Candidates(ahead);
  }

  predicate SameScores(cfg: Config, a: PresenceMap, b: PresenceMap) {
    && a.Keys == b.Keys
    && forall id :: id in a ==> WeightedScore(cfg, a[id]) == WeightedScore(cfg, b[id])
  }

  /** Ranks and leadership depend on nothing but the ids and their weighted scores. */
  lemma SameScoresSameLeaders(cfg: Config, a: PresenceMap, b: PresenceMap, id: string)
    requires Keyed(a) && Keyed(b) && SameScores(cfg, a, b) && id in a
    ensures Rank(cfg, a, a[id]) == Rank(cfg, b, b[id])
    ensures LeaderCount(cfg, a) == LeaderCount(cfg, b)
    ensures Leads(cfg, a, id) <==> Leads(cfg, b, id)
  {
    hide WeightedScore;
    RankCountsIds(cfg, a, id);
    RankCountsIds(cfg, b, id);
    assert AheadIds(cfg, a, id) == AheadIds(cfg, b, id);
    assert |a| == |a.Keys| && |b| == |b.Keys|;
  }

  function Ids(r: seq<Record>): seq<string> {
    seq(|r|, i requires 0 <= i < |r| => r[i].agentId)
  }

  lemma KeyedAt(m: PresenceMap, id: string)
    requires Keyed(m) && id in m
    ensures m[id].agentId == id
  {
  }

  lemma RankingParts(cfg: Config, m: PresenceMap, r: seq<Record>)
    requires IsRanking(ByScore(cfg), Candidates(m), r)
    ensures Members(r) == Candidates(m)
  {
  }

  lemma IdsCoverMap(cfg: Config, m: PresenceMap, r: seq<Record>)
    requires Keyed(m) && IsRanking(ByScore(cfg), Candidates(m), r)
    ensures Members(Ids(r)) == m.Keys
  {
    hide ByScore, SortedBy, Keyed, IsRanking, Candidates;
    forall id
      ensures id in Members(Ids(r)) <==> id in m.Keys
    {
      if id in m.Keys {
        KeyedAt(m, id);
        var i := IndexOf(cfg, m, r, id);
        assert Ids(r)[i] == id;
      }
      if id in Members(Ids(r)) {
        var i :| 0 <= i < |r| && Ids(r)[i] == id;
        RankingParts(cfg, m, r);
        RankingMembers(m, r, i);
      }
    }
  }

  /** The ids of a map, best first: each at its rank, and the first `LeaderCount` of them lead. */
  lemma RankOrder(cfg: Config, m: PresenceMap) returns (ids: seq<string>)
    requires Keyed(m)
    ensures |ids| == |m| && NoRepeats(ids) && Members(ids) == m.Keys
    ensures forall i :: 0 <= i < |ids| ==> ids[i] in m && Rank(cfg, m, m[ids[i]]) == i
    ensures forall i :: 0 <= i < |ids| ==> (Leads(cfg, m, ids[i]) <==> i < LeaderCount(cfg, m))
  {
    hide Leads, Rank, StrictOn, IsRanking, Keyed, LeaderCount, Members;
    ByScoreIsStrict(cfg, m);
    var r := RankingExists(ByScore(cfg), Candidates(m), Candidates(m));
    RankedNoRepeats(ByScore(cfg), Candidates(m), r);
    CandidatesCount(m);
    IdsCoverMap(cfg, m, r);
    ids := Ids(r);
    forall i | 0 <= i < |r|
      ensures ids[i] in m && m[ids[i]] == r[i] && Rank(cfg, m, m[ids[i]]) == i
      ensures Leads(cfg, m, ids[i]) <==> i < LeaderCount(cfg, m)
    {
      LeadersArePrefix(cfg, m, r, i);
    }
  }

  ghost function LeaderIds(cfg: Config, m: PresenceMap): set<string> {
    set id | id in m && Leads(cfg, m, id)
  }

  /** Exactly min(max(1, max_coordinators), n) of the n candidates lead. */
  lemma LeadersCount(cfg: Config, m: PresenceMap)
    requires Keyed(m)
    ensures |LeaderIds(cfg, m)| == LeaderCount(cfg, m)
    ensures var limit := if cfg.maxCoordinators == 0 then 1 else cfg.maxCoordinators;
            |LeaderIds(cfg, m)| == if |m| <= limit then |m| else limit
  {
    var ids := RankOrder(cfg, m);
    hide Leads, Rank;
    var k := LeaderCount(cfg, m);
    var leaders := LeaderIds(cfg, m);
    forall id
      ensures id in leaders <==> id in ids[..k]
    {
      if id in leaders {
        assert id in Members(ids);
        var i :| 0 <= i < |ids| && ids[i] == id;
        assert ids[..k][i] == id;
      }
    }
    assert leaders == Members(ids[..k]);
    MembersCount(ids[..k]);
  }

  // ------------------------------------------------------------- stability

  /** The record written back repeats the role, and a later election at the same time finds nothing to expire. */
  lemma MirrorIsStable(live: PresenceMap, ttl: U64, role: Role, own: Record)
    requires Keyed(live) && role.agentId in live && own.agentId == role.agentId
    requires forall id :: id in live ==> SatSub(own.lastSeenMs, live[id].lastSeenMs) <= ttl
    ensures var after := live[role.agentId := Mirror(live[role.agentId], role, own.lastSeenMs)];
            && after[role.agentId].isCoordinator == role.isCoordinator && after[role.agentId].epoch == role.epoch
            && after[role.agentId].lastSeenMs == own.lastSeenMs && after[role.agentId].probe == role.probe
            && SameBasis(after[role.agentId], live[role.agentId])
            && after[role.agentId].latencyMs == live[role.agentId].latencyMs
            && Live(after, ttl, own).Keys == live.Keys
            && forall id :: id in live ==> SatSub(own.lastSeenMs, after[id].lastSeenMs) <= ttl
  {
  }

  /** The live map of a later election with nothing new heard and nothing expired. */
  predicate NothingNew(live: PresenceMap, ttl: U64, role: Role, now: U64, own: Record) {
    && role.agentId in live && own.agentId == role.agentId
    && forall id :: id in live ==>
         SatSub(own.lastSeenMs, (if id == role.agentId then now else live[id].lastSeenMs)) <= ttl
  }

  lemma NothingNewAgrees(cfg: Config, live: PresenceMap, role: Role, now: U64, own: Record)
    requires Keyed(live) && NothingNew(live, cfg.presenceTtlMs, role, now, own)
    ensures var later := Live(live[role.agentId := Mirror(live[role.agentId], role, now)], cfg.presenceTtlMs, own);
            && Keyed(later) && later.Keys == live.Keys
            && forall id :: id in live ==> SameBasis(live[id], later[id]) && live[id].latencyMs == later[id].latencyMs
  {
  }

  lemma ProxyCarriesOver(cfg: Config, a: PresenceMap, b: PresenceMap, p: Record, q: Record)
    requires Keyed(a) && Keyed(b) && SameScores(cfg, a, b) && forall id :: id in a ==> a[id].latencyMs == b[id].latencyMs
    requires IsProxy(cfg, a, p) && IsProxy(cfg, b, q)
    ensures p.agentId == q.agentId
  {
    SameScoresSameLeaders(cfg, a, b, p.agentId);
    SameScoresSameLeaders(cfg, a, b, q.agentId);
    StringLessTotal(p.agentId, q.agentId);
    hide WeightedScore, Leads, Rank;
  }

  lemma DecidedParts(cfg: Config, m: PresenceMap, role: Role) returns (p: Record)
    requires Decided(cfg, m, role)
    ensures role.agentId in m && role.leaderCount == LeaderCount(cfg, m)
    ensures role.isCoordinator <==> Leads(cfg, m, role.agentId)
    ensures role.leaderRank == if role.isCoordinator then Rank(cfg, m, m[role.agentId]) else U64_MAX
    ensures IsProxy(cfg, m, p) && role.proxyAgentId == Some(p.agentId)
  {
    hide IsProxy, IsExporter, Leads, Rank;
    p :| IsProxy(cfg, m, p)
         && role.proxyAgentId == Some(p.agentId) && role.proxyLatencyMs == Some(p.latencyMs)
         && role.proxyAddr == p.statusAddr;
  }

  lemma ScoresCarryOver(cfg: Config, a: PresenceMap, b: PresenceMap)
    requires a.Keys == b.Keys
    requires forall id :: id in a ==> SameBasis(a[id], b[id]) && a[id].latencyMs == b[id].latencyMs
    ensures SameScores(cfg, a, b)
  {
  }

  /** Electing again with nothing new heard and nothing expired changes neither role nor rank nor proxy. */
  lemma ReelectionIsStable(cfg: Config, live: PresenceMap, role: Role, now: U64, own: Record, next: Role)
    requires Keyed(live) && Decided(cfg, live, role) && NothingNew(live, cfg.presenceTtlMs, role, now, own)
    requires next.agentId == role.agentId
    requires Decided(cfg, Live(live[role.agentId := Mirror(live[role.agentId], role, now)], cfg.presenceTtlMs, own), next)
    ensures next.isCoordinator == role.isCoordinator
    ensures next.leaderRank == role.leaderRank && next.leaderCount == role.leaderCount
    ensures next.proxyAgentId == role.proxyAgentId
  {
    var later := Live(live[role.agentId := Mirror(live[role.agentId], role, now)], cfg.presenceTtlMs, own);
    NothingNewAgrees(cfg, live, role, now, own);
    hide Live, Mirror, Decided, Leads, Rank, IsProxy, WeightedScore, Keyed, SameScores, NothingNew;
    ScoresCarryOver(cfg, live, later);
    SameScoresSameLeaders(cfg, live, later, role.agentId);
    var p := DecidedParts(cfg, live, role);
    var q := DecidedParts(cfg, later, next);
    ProxyCarriesOver(cfg, live, later, p, q);
  }

  // ------------------------------------------------------------- the fleet

  /** Every agent has decided on its own view, and the views cover the fleet and agree on the scores. */
  ghost predicate Fleet(cfg: Config, shared: PresenceMap, views: map<string, PresenceMap>, roles: map<string, Role>) {
    && Keyed(shared) && views.Keys == shared.Keys && roles.Keys == shared.Keys
    && forall id :: id in shared ==>
         Keyed(views[id]) && SameScores(cfg, shared, views[id])
         && roles[id].agentId == id && Decided(cfg, views[id], roles[id])
  }

  predicate HoldsRank(roles: map<string, Role>, id: string, rank: nat) {
    id in roles && roles[id].isCoordinator && roles[id].leaderRank == rank
  }

  ghost predicate OnlyHolder(roles: map<string, Role>, id: string, rank: nat) {
    HoldsRank(roles, id, rank) && forall other :: HoldsRank(roles, other, rank) ==> other == id
  }

  lemma DecidedRank(cfg: Config, m: PresenceMap, role: Role)
    requires Decided(cfg, m, role)
    ensures role.agentId in m
    ensures role.isCoordinator <==> Leads(cfg, m, role.agentId)
    ensures role.isCoordinator ==> role.leaderRank == Rank(cfg, m, m[role.agentId])
  {
    hide Leads, Rank, IsProxy, IsExporter;
  }

  lemma FleetRole(cfg: Config, shared: PresenceMap, views: map<string, PresenceMap>, roles: map<string, Role>, id: string)
    requires Fleet(cfg, shared, views, roles) && id in shared
    ensures id in roles && (roles[id].isCoordinator <==> Leads(cfg, shared, id))
    ensures roles[id].isCoordinator ==> roles[id].leaderRank == Rank(cfg, shared, shared[id])
  {
    hide Leads, Rank, Decided, SameScores;
    DecidedRank(cfg, views[id], roles[id]);
    SameScoresSameLeaders(cfg, shared, views[id], id);
  }

  lemma FleetKeys(cfg: Config, shared: PresenceMap, views: map<string, PresenceMap>, roles: map<string, Role>)
    requires Fleet(cfg, shared, views, roles)
    ensures Keyed(shared) && roles.Keys == shared.Keys
  {
  }

  function Coordinators(roles: map<string, Role>): set<string> {
    set id | id in roles && roles[id].isCoordinator
  }

  /** Exactly the leader count of agents become coordinator, whatever order their maps were walked in. */
  lemma FleetElectsCount(cfg: Config, shared: PresenceMap, views: map<string, PresenceMap>, roles: map<string, Role>)
    requires Fleet(cfg, shared, views, roles)
    ensures |Coordinators(roles)| == LeaderCount(cfg, shared)
  {
    hide Leads, Rank, Fleet, Keyed, LeaderCount;
    FleetKeys(cfg, shared, views, roles);
    LeadersCount(cfg, shared);
    forall id
      ensures id in Coordinators(roles) <==> id in LeaderIds(cfg, shared)
    {
      if id in shared.Keys {
        FleetRole(cfg, shared, views, roles, id);
      }
    }
    assert Coordinators(roles) == LeaderIds(cfg, shared);
  }

  lemma LeaderCountFits(cfg: Config, m: PresenceMap)
    ensures LeaderCount(cfg, m) <= |m|
    ensures m != map[] ==> LeaderCount(cfg, m) > 0
  {
  }

  /** Every rank below the leader count is held, and no rank is held twice. */
  lemma FleetRanksOnce(cfg: Config, shared: PresenceMap, views: map<string, PresenceMap>, roles: map<string, Role>, rank: nat)
    requires Fleet(cfg, shared, views, roles)
    ensures rank < LeaderCount(cfg, shared) ==> exists id :: HoldsRank(roles, id, rank)
    ensures forall a, b :: HoldsRank(roles, a, rank) && HoldsRank(roles, b, rank) ==> a == b
  {
    hide Leads, Rank, Fleet, LeaderCount, Keyed, NoRepeats;
    FleetKeys(cfg, shared, views, roles);
    var ids := RankOrder(cfg, shared);
    LeaderCountFits(cfg, shared);
    if rank < LeaderCount(cfg, shared) {
      FleetRole(cfg, shared, views, roles, ids[rank]);
      assert HoldsRank(roles, ids[rank], rank);
    }
    forall a | HoldsRank(roles, a, rank)
      ensures rank < |ids| && a == ids[rank]
    {
      assert a in Members(ids);
      var i :| 0 <= i < |ids| && ids[i] == a;
      FleetRole(cfg, shared, views, roles, a);
    }
  }

  /** The rank-0 controller of the autoscaler exists and is unique in a fleet that agrees on the scores. */
  lemma FleetHasOneController(cfg: Config, shared: PresenceMap, views: map<string, PresenceMap>, roles: map<string, Role>)
    requires Fleet(cfg, shared, views, roles) && shared != map[]
    ensures exists id :: OnlyHolder(roles, id, 0)
  {
    hide Fleet, HoldsRank;
    FleetRanksOnce(cfg, shared, views, roles, 0);
    LeaderCountFits(cfg, shared);
    var id :| HoldsRank(roles, id, 0);
    assert OnlyHolder(roles, id, 0);
  }

  // ------------------------------------------------- how scores move ranks

  /** Raising one record's weighted score, all other records fixed, never worsens its rank or costs it the lead. */
  lemma HigherScoreHelps(cfg: Config, m: PresenceMap, id: string, r: Record)
    requires Keyed(m) && id in m && r.agentId == id
    requires WeightedScore(cfg, r) >= WeightedScore(cfg, m[id])
    ensures Rank(cfg, m[id := r], r) <= Rank(cfg, m, m[id])
    ensures Leads(cfg, m, id) ==> Leads(cfg, m[id := r], id)
  {
    hide WeightedScore;
    var m' := m[id := r];
    RankCountsIds(cfg, m, id);
    RankCountsIds(cfg, m', id);
    StringLessTotal(id, id);
    var before, after := AheadIds(cfg, m, id), AheadIds(cfg, m', id);
    assert after <= before;
    SubsetCount(after, before);
    assert m'.Keys == m.Keys;
    assert |m'| == |m'.Keys| && |m| == |m.Keys|;
  }

  lemma LatencyScoreDecreases(low: U64, high: U64)
    requires low <= high
    ensures 0.0 < LatencyScore(high) <= LatencyScore(low)
  {
    var a, b := 1.0 + low as real, 1.0 + high as real;
    assert 1_000_000.0 / a * a == 1_000_000.0 && 1_000_000.0 / b * b == 1_000_000.0;
    if 1_000_000.0 / b > 1_000_000.0 / a {
      assert 1_000_000.0 / b * b > 1_000_000.0 / a * b >= 1_000_000.0 / a * a;
    }
  }

  /** The election is monotone in latency: answering faster never costs an agent its place. */
  lemma LowerLatencyHelps(cfg: Config, m: PresenceMap, id: string, latencyMs: U64)
    requires Keyed(m) && id in m && latencyMs <= m[id].latencyMs && cfg.weightLatency >= 0.0
    ensures var faster := m[id].(latencyMs := latencyMs);
            Rank(cfg, m[id := faster], faster) <= Rank(cfg, m, m[id])
            && (Leads(cfg, m, id) ==> Leads(cfg, m[id := faster], id))
  {
    LatencyScoreDecreases(latencyMs, m[id].latencyMs);
    assert LatencyScore(latencyMs) * cfg.weightLatency >= LatencyScore(m[id].latencyMs) * cfg.weightLatency;
    HigherScoreHelps(cfg, m, id, m[id].(latencyMs := latencyMs));
  }

  /** More cores never cost an agent its place. */
  lemma MoreCoresHelp(cfg: Config, m: PresenceMap, id: string, cores: U64)
    requires Keyed(m) && id in m && cores >= m[id].cpuCores && cfg.weightCpu >= 0.0
    ensures var bigger := m[id].(cpuCores := cores);
            Rank(cfg, m[id := bigger], bigger) <= Rank(cfg, m, m[id])
            && (Leads(cfg, m, id) ==> Leads(cfg, m[id := bigger], id))
  {
    assert cores as real * cfg.weightCpu >= m[id].cpuCores as real * cfg.weightCpu;
    HigherScoreHelps(cfg, m, id, m[id].(cpuCores := cores));
  }

  /** Nor does a higher hash score, or tags worth more. */
  lemma HigherHashOrTagsHelp(cfg: Config, m: PresenceMap, id: string, score: U64, tags: seq<string>)
    requires Keyed(m) && id in m && cfg.weightHash >= 0.0 && cfg.weightCapability >= 0.0
    requires score >= m[id].score && cfg.capability(tags) >= cfg.capability(m[id].tags)
    ensures var stronger := m[id].(score := score, tags := tags);
            Rank(cfg, m[id := stronger], stronger) <= Rank(cfg, m, m[id])
            && (Leads(cfg, m, id) ==> Leads(cfg, m[id := stronger], id))
  {
    assert score as real / U64_MAX as real >= m[id].score as real / U64_MAX as real;
    assert score as real / U64_MAX as real * cfg.weightHash >= m[id].score as real / U64_MAX as real * cfg.weightHash;
    assert cfg.capability(tags) * cfg.weightCapability >= cfg.capability(m[id].tags) * cfg.weightCapability;
    HigherScoreHelps(cfg, m, id, m[id].(score := score, tags := tags));
  }

  // ------------------------------------------------------------- the epoch

  /** The epoch's parity tells the role until it saturates, and from then on only for an odd number of flips. */
  lemma EpochParityIff(role: Role, flips: nat)
    requires Consistent(role, flips)
    ensures (role.isCoordinator <==> role.epoch % 2 == 1) <==> (flips <= U64_MAX || role.isCoordinator)
  {
  }
}
