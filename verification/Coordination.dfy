/** Leader election: the presence map, the weighted ranking, the proxy and exporter choices, the role epoch. */
module Coordination {
  import opened Lists
  import opened Machine
  import opened Ranking

  datatype Probe = Probe(ready: bool, latencyMs: U64, bandwidthMbps: real, sampledAtMs: U64)

  datatype Record = Record(
    agentId: string, agentVersion: Option<string>, score: U64, cpuCores: U64, os: string, arch: string,
    latencyMs: U64, advertiseAddr: Option<string>, statusAddr: Option<string>, observedAddr: Option<string>,
    tags: seq<string>, isCoordinator: bool, epoch: U64, lastSeenMs: U64, probe: Option<Probe>)

  /** Alike in everything that a weighted score depends on, latency apart. */
  predicate SameBasis(a: Record, b: Record) {
    a.score == b.score && a.cpuCores == b.cpuCores && a.tags == b.tags
  }

  datatype Role = Role(
    agentId: string, score: U64, isCoordinator: bool, leaderRank: U64, leaderCount: U64, epoch: U64,
    lastUpdateMs: U64, proxyAgentId: Option<string>, proxyLatencyMs: Option<U64>, proxyAddr: Option<string>,
    isPrometheusExporter: bool, exporterAgentId: Option<string>, exporterAddr: Option<string>,
    exporterLatencyMs: Option<U64>, exporterBandwidthMbps: Option<real>, probe: Option<Probe>)

  /** A gossip announcement as the discovery loop hands it over. */
  datatype Presence = Presence(
    agentId: string, agentVersion: Option<string>, tsMs: U64, addr: Option<string>, statusAddr: Option<string>,
    observedAddr: Option<string>, cpuCores: U64, os: string, arch: string, tags: seq<string>,
    isCoordinator: Option<bool>, coordinatorEpoch: Option<U64>, score: Option<U64>, probe: Option<Probe>)

  /** Settings, with the tag score and the logarithm left open: every result holds for all choices of the two. */
  datatype Config = Config(
    maxCoordinators: U64, presenceTtlMs: U64, weightCpu: real, weightLatency: real, weightHash: real,
    weightCapability: real, weightExporterLatency: real, weightExporterBandwidth: real,
    capability: seq<string> -> real, ln1p: real -> real)

  type PresenceMap = map<string, Record>

  // ----------------------------------------------------------------- scores

  function LatencyScore(latencyMs: U64): real {
    1_000_000.0 / (1.0 + latencyMs as real)
  }

  function WeightedScore(cfg: Config, r: Record): real {
    r.cpuCores as real * cfg.weightCpu
    + LatencyScore(r.latencyMs) * cfg.weightLatency
    + r.score as real / U64_MAX as real * cfg.weightHash
    + cfg.capability(r.tags) * cfg.weightCapability
  }

  function MaxReal(a: real, b: real): real {
    if a >= b then a else b
  }

  function ExportScore(cfg: Config, r: Record, probe: Probe): real {
    LatencyScore(probe.latencyMs) * cfg.weightExporterLatency
    + MaxReal(cfg.ln1p(MaxReal(probe.bandwidthMbps, 0.0)) * 100_000.0, 0.0) * cfg.weightExporterBandwidth
    + WeightedScore(cfg, r) * 0.05
  }

  predicate Ready(r: Record) {
    r.probe.Some? && r.probe.value.ready
  }

  function ExporterScore(cfg: Config, r: Record): real {
    if Ready(r) then ExportScore(cfg, r, r.probe.value) else WeightedScore(cfg, r)
  }

  predicate Better(cfg: Config, a: Record, b: Record) {
    || WeightedScore(cfg, a) > WeightedScore(cfg, b)
    || (WeightedScore(cfg, a) == WeightedScore(cfg, b) && StringLess(a.agentId, b.agentId))
  }

  predicate BetterExporter(cfg: Config, a: Record, b: Record) {
    || (Ready(a) && !Ready(b))
    || (Ready(a) == Ready(b) && ExporterScore(cfg, a) > ExporterScore(cfg, b))
    || (Ready(a) == Ready(b) && ExporterScore(cfg, a) == ExporterScore(cfg, b) && StringLess(a.agentId, b.agentId))
  }

  function ByScore(cfg: Config): (Record, Record) -> bool {
    (a, b) => Better(cfg, a, b)
  }

  function ByExporterScore(cfg: Config): (Record, Record) -> bool {
    (a, b) => BetterExporter(cfg, a, b)
  }

  // ------------------------------------------------------ candidates and leaders

  /** Records are filed under their own agent id. */
  predicate Keyed(m: PresenceMap) {
    forall id :: id in m ==> m[id].agentId == id
  }

  ghost function Candidates(m: PresenceMap): set<Record> {
    set id | id in m :: m[id]
  }

  /** How many candidates rank above `r`. */
  ghost function Rank(cfg: Config, m: PresenceMap, r: Record): nat {
    |Ahead(ByScore(cfg), Candidates(m), r)|
  }

  function LeaderCount(cfg: Config, m: PresenceMap): nat {
    Min(Max(cfg.maxCoordinators, 1), |m|)
  }

  ghost predicate Leads(cfg: Config, m: PresenceMap, id: string)
    requires id in m
  {
    Rank(cfg, m, m[id]) < LeaderCount(cfg, m)
  }

  /** `p` has the lowest latency among the leaders, and the best rank among the leaders with that latency. */
  ghost predicate IsProxy(cfg: Config, m: PresenceMap, p: Record) {
    && p.agentId in m && m[p.agentId] == p && Leads(cfg, m, p.agentId)
    && forall id :: id in m && id != p.agentId && Leads(cfg, m, id) ==>
         p.latencyMs < m[id].latencyMs || (p.latencyMs == m[id].latencyMs && Better(cfg, p, m[id]))
  }

  /** `e` comes before every other candidate: ready probes first, then the export score, then the id. */
  ghost predicate IsExporter(cfg: Config, m: PresenceMap, e: Record) {
    && e.agentId in m && m[e.agentId] == e
    && forall id :: id in m && id != e.agentId ==> BetterExporter(cfg, e, m[id])
  }

  lemma ByScoreIsStrict(cfg: Config, m: PresenceMap)
    requires Keyed(m)
    ensures StrictOn(ByScore(cfg), Candidates(m))
  {
    var less, s := ByScore(cfg), Candidates(m);
    forall x, y | x in s && y in s
      ensures !less(x, x) && (x != y ==> less(x, y) != less(y, x))
    {
      StringLessTotal(x.agentId, y.agentId);
    }
    forall x, y, z | x in s && y in s && z in s && less(x, y) && less(y, z)
      ensures less(x, z)
    {
      if StringLess(x.agentId, y.agentId) && StringLess(y.agentId, z.agentId) {
        StringLessTransitive(x.agentId, y.agentId, z.agentId);
      }
    }
  }

  lemma ByExporterScoreIsStrict(cfg: Config, m: PresenceMap)
    requires Keyed(m)
    ensures StrictOn(ByExporterScore(cfg), Candidates(m))
  {
    var less, s := ByExporterScore(cfg), Candidates(m);
    forall x, y | x in s && y in s
      ensures !less(x, x) && (x != y ==> less(x, y) != less(y, x))
    {
      StringLessTotal(x.agentId, y.agentId);
    }
    forall x, y, z | x in s && y in s && z in s && less(x, y) && less(y, z)
      ensures less(x, z)
    {
      if StringLess(x.agentId, y.agentId) && StringLess(y.agentId, z.agentId) {
        StringLessTransitive(x.agentId, y.agentId, z.agentId);
      }
    }
  }

  lemma {:induction false} CandidatesCount(m: PresenceMap)
    requires Keyed(m)
    ensures |Candidates(m)| == |m|
    decreases |m|
  {
    if m == map[] {
      assert Candidates(m) == {};
    } else {
      var id :| id in m;
      var rest := map k | k in m && k != id :: m[k];
      assert rest.Keys == m.Keys - {id};
      assert |m.Keys| == |m| && |rest.Keys| == |rest|;
      CandidatesCount(rest);
      forall x
        ensures x in Candidates(m) <==> x in Candidates(rest) + {m[id]}
      {
        if x in Candidates(m) {
          var k :| k in m && m[k] == x;
          assert k != id ==> k in rest;
        }
        if x in Candidates(rest) {
          var k :| k in rest && rest[k] == x;
          assert k in m;
        }
      }
      assert Candidates(m) == Candidates(rest) + {m[id]} && m[id] !in Candidates(rest);
    }
  }

  // -------------------------------------------------- choices from a ranking

  function Position(leaders: seq<Record>, id: string): (r: Option<nat>)
    ensures r.Some? ==> r.value < |leaders| && leaders[r.value].agentId == id
    ensures r.None? ==> forall i :: 0 <= i < |leaders| ==> leaders[i].agentId != id
  {
    if leaders == [] then None
    else if leaders[0].agentId == id then Some(0)
    else
      var rest := Position(leaders[1..], id);
      if rest.Some? then Some(rest.value + 1) else None
  }

  /** Where `min_by` on latency stops: at the first of the least. */
  function FastestAt(s: seq<Record>): (i: nat)
    requires s != []
    ensures i < |s|
    ensures forall j :: 0 <= j < i ==> s[i].latencyMs < s[j].latencyMs
    ensures forall j :: i <= j < |s| ==> s[i].latencyMs <= s[j].latencyMs
  {
    if |s| == 1 then 0
    else
      var best := FastestAt(s[..|s| - 1]);
      assert forall j :: 0 <= j < |s| - 1 ==> s[..|s| - 1][j] == s[j];
      if s[|s| - 1].latencyMs < s[best].latencyMs then |s| - 1 else best
  }

  function SelectProxy(all: seq<Record>, leaders: seq<Record>): Option<Record> {
    var candidates := if leaders == [] then all else leaders;
    if candidates == [] then None else Some(candidates[FastestAt(candidates)])
  }

  function SelectExporter(cfg: Config, all: seq<Record>): Option<Record> {
    var sorted := Sort(ByExporterScore(cfg), all);
    if sorted == [] then None else Some(sorted[0])
  }

  lemma RankingMembers(m: PresenceMap, r: seq<Record>, i: nat)
    requires Keyed(m) && Members(r) == Candidates(m) && i < |r|
    ensures r[i].agentId in m && m[r[i].agentId] == r[i]
  {
    assert r[i] in Members(r);
  }

  /** The leader prefix of a ranking is exactly the agents that lead, each at its own rank. */
  lemma LeadersArePrefix(cfg: Config, m: PresenceMap, r: seq<Record>, i: nat)
    requires Keyed(m) && IsRanking(ByScore(cfg), Candidates(m), r) && i < |r|
    ensures |r| == |m| && r[i].agentId in m && m[r[i].agentId] == r[i]
    ensures Rank(cfg, m, r[i]) == i
    ensures Leads(cfg, m, r[i].agentId) <==> i < LeaderCount(cfg, m)
  {
    ByScoreIsStrict(cfg, m);
    PlaceIsAhead(ByScore(cfg), Candidates(m), r, i);
    RankedNoRepeats(ByScore(cfg), Candidates(m), r);
    CandidatesCount(m);
    RankingMembers(m, r, i);
  }

  lemma IndexOf(cfg: Config, m: PresenceMap, r: seq<Record>, id: string) returns (i: nat)
    requires Keyed(m) && IsRanking(ByScore(cfg), Candidates(m), r) && id in m
    ensures i < |r| && r[i] == m[id]
  {
    assert m[id] in Candidates(m);
    assert m[id] in Members(r);
    i :| 0 <= i < |r| && r[i] == m[id];
  }

  lemma PositionFound(leaders: seq<Record>, id: string, i: nat)
    requires i < |leaders| && leaders[i].agentId == id
    ensures Position(leaders, id).Some?
  {
  }

  lemma PositionIsRank(cfg: Config, m: PresenceMap, r: seq<Record>, id: string)
    requires Keyed(m) && IsRanking(ByScore(cfg), Candidates(m), r) && id in m
    ensures |r| == |m|
    ensures Position(r[..LeaderCount(cfg, m)], id)
         == if Leads(cfg, m, id) then Some(Rank(cfg, m, m[id])) else None
  {
    var i := IndexOf(cfg, m, r, id);
    LeadersArePrefix(cfg, m, r, i);
    hide Leads, Rank, IsRanking, Candidates, Position, Keyed;
    var p := Position(r[..LeaderCount(cfg, m)], id);
    if i < LeaderCount(cfg, m) {
      PositionFound(r[..LeaderCount(cfg, m)], id, i);
    }
    if p.Some? {
      LeadersArePrefix(cfg, m, r, p.value);
    }
  }

  lemma RankedInOrder(cfg: Config, m: PresenceMap, r: seq<Record>, i: nat, j: nat)
    requires IsRanking(ByScore(cfg), Candidates(m), r) && i < |r| && j < |r|
    ensures i < j ==> Better(cfg, r[i], r[j])
  {
    SortedAt(ByScore(cfg), r, i, j);
  }

  lemma ProxyIsProxy(cfg: Config, m: PresenceMap, r: seq<Record>)
    requires Keyed(m) && m != map[] && IsRanking(ByScore(cfg), Candidates(m), r) && |r| == |m|
    ensures SelectProxy(r, r[..LeaderCount(cfg, m)]).Some?
    ensures IsProxy(cfg, m, SelectProxy(r, r[..LeaderCount(cfg, m)]).value)
  {
    var leaders := r[..LeaderCount(cfg, m)];
    var i := FastestAt(leaders);
    var p := leaders[i];
    LeadersArePrefix(cfg, m, r, i);
    hide Leads, Rank, Better, WeightedScore, IsRanking, FastestAt, Candidates;
    forall id | id in m && id != p.agentId && Leads(cfg, m, id)
      ensures p.latencyMs < m[id].latencyMs || (p.latencyMs == m[id].latencyMs && Better(cfg, p, m[id]))
    {
      var j := IndexOf(cfg, m, r, id);
      LeadersArePrefix(cfg, m, r, j);
      assert leaders[j] == m[id];
      RankedInOrder(cfg, m, r, i, j);
    }
  }

  lemma ExporterIsExporter(cfg: Config, m: PresenceMap, r: seq<Record>)
    requires Keyed(m) && m != map[] && NoRepeats(r) && Members(r) == Candidates(m)
    ensures SelectExporter(cfg, r).Some? && IsExporter(cfg, m, SelectExporter(cfg, r).value)
    ensures (exists id :: id in m && Ready(m[id])) ==> Ready(SelectExporter(cfg, r).value)
  {
    ByExporterScoreIsStrict(cfg, m);
    SortRanks(ByExporterScore(cfg), Candidates(m), r);
    var sorted := Sort(ByExporterScore(cfg), r);
    CandidatesCount(m);
    var some :| some in m;
    assert m[some] in Candidates(m);
    assert m[some] in Members(sorted);
    RankingMembers(m, sorted, 0);
    forall id | id in m && id != sorted[0].agentId
      ensures BetterExporter(cfg, sorted[0], m[id])
    {
      assert m[id] in Candidates(m);
      assert m[id] in Members(sorted);
      var j :| 0 <= j < |sorted| && sorted[j] == m[id];
      assert ByExporterScore(cfg)(sorted[0], sorted[j]);
    }
  }

  /** The map fixes the proxy and the exporter: at most one record satisfies each definition. */
  lemma ChoicesAreUnique(cfg: Config, m: PresenceMap, p: Record, q: Record)
    requires Keyed(m)
    ensures IsProxy(cfg, m, p) && IsProxy(cfg, m, q) ==> p == q
    ensures IsExporter(cfg, m, p) && IsExporter(cfg, m, q) ==> p == q
  {
    StringLessTotal(p.agentId, q.agentId);
  }

  // -------------------------------------------------------- the state machine

  /** The record an agent files for itself when it has none. */
  function LocalRecord(role: Role, version: string, cpuCores: U64, os: string, arch: string, tags: seq<string>,
                       probe: Option<Probe>, now: U64): Record {
    Record(role.agentId, Some(version), role.score, cpuCores, os, arch, 0, None, None, None, tags,
           role.isCoordinator, role.epoch, now, probe)
  }

  function Prune(m: PresenceMap, ttl: U64, now: U64): PresenceMap {
    map id | id in m && SatSub(now, m[id].lastSeenMs) <= ttl :: m[id]
  }

  /** The map an election looks at: expired records dropped, the agent's own record present and refreshed. */
  function Live(m: PresenceMap, ttl: U64, own: Record): PresenceMap {
    var kept := Prune(m, ttl, own.lastSeenMs);
    var mine := if own.agentId in kept then kept[own.agentId] else own;
    kept[own.agentId := mine.(agentVersion := own.agentVersion, probe := own.probe, lastSeenMs := own.lastSeenMs)]
  }

  predicate AllCurrent(m: PresenceMap, ttl: U64, now: U64) {
    forall id :: id in m ==> SatSub(now, m[id].lastSeenMs) <= ttl
  }

  /** The agent's own record after an election: it repeats the role that was decided. */
  function Mirror(r: Record, role: Role, now: U64): Record {
    r.(isCoordinator := role.isCoordinator, epoch := role.epoch, lastSeenMs := now, probe := role.probe)
  }

  /**
   * The live map keeps every record no older than the TTL as it is, but for the own one: that is the one kept, with
   * version, probe and time renewed, or else the one handed in. Writing the own one back leaves all within the TTL.
   */
  lemma LiveIsCurrent(m: PresenceMap, ttl: U64, own: Record)
    ensures var live := Live(m, ttl, own);
            && (forall id :: id != own.agentId ==>
                  (id in live <==> id in m && own.lastSeenMs <= m[id].lastSeenMs + ttl))
            && (forall id :: id in live && id != own.agentId ==> live[id] == m[id])
            && own.agentId in live
            && live[own.agentId] ==
                 (if own.agentId in m && own.lastSeenMs <= m[own.agentId].lastSeenMs + ttl
                  then m[own.agentId].(agentVersion := own.agentVersion, probe := own.probe, lastSeenMs := own.lastSeenMs)
                  else own)
            && forall role :: AllCurrent(live[own.agentId := Mirror(live[own.agentId], role, own.lastSeenMs)], ttl, own.lastSeenMs)
  {
  }

  lemma LiveStaysCurrent(m: PresenceMap, ttl: U64, own: Record)
    ensures own.agentId in Live(m, ttl, own)
    ensures forall role ::
              AllCurrent(Live(m, ttl, own)[own.agentId := Mirror(Live(m, ttl, own)[own.agentId], role, own.lastSeenMs)],
                         ttl, own.lastSeenMs)
  {
    LiveIsCurrent(m, ttl, own);
    hide Live, Mirror, AllCurrent;
  }

  /** What an election decides, as a function of the live map alone. */
  ghost predicate Decided(cfg: Config, live: PresenceMap, role: Role) {
    && role.agentId in live
    && role.leaderCount == LeaderCount(cfg, live)
    && (role.isCoordinator <==> Leads(cfg, live, role.agentId))
    && role.leaderRank == (if role.isCoordinator then Rank(cfg, live, live[role.agentId]) else U64_MAX)
    && (exists p :: IsProxy(cfg, live, p)
          && role.proxyAgentId == Some(p.agentId) && role.proxyLatencyMs == Some(p.latencyMs)
          && role.proxyAddr == p.statusAddr)
    && (exists e :: IsExporter(cfg, live, e)
          && role.isPrometheusExporter == (e.agentId == role.agentId)
          && role.exporterAgentId == Some(e.agentId) && role.exporterAddr == e.statusAddr
          && role.exporterLatencyMs == (if e.probe.Some? then Some(e.probe.value.latencyMs) else None)
          && role.exporterBandwidthMbps == (if e.probe.Some? then Some(e.probe.value.bandwidthMbps) else None))
  }

  /** The epoch counts the role flips up to saturation, the role is their parity, and ranks match roles. */
  predicate Consistent(role: Role, flips: nat) {
    && role.epoch == Min(flips, U64_MAX)
    && (role.isCoordinator <==> flips % 2 == 1)
    && (role.leaderRank < role.leaderCount <==> role.isCoordinator)
  }

  datatype Choice = Choice(leaderCount: U64, position: Option<U64>, proxy: Record, exporter: Record)

  ghost predicate Elected(cfg: Config, m: PresenceMap, id: string, c: Choice) {
    && id in m
    && c.leaderCount == LeaderCount(cfg, m)
    && c.position == (if Leads(cfg, m, id) then Some(Rank(cfg, m, m[id])) else None)
    && IsProxy(cfg, m, c.proxy) && IsExporter(cfg, m, c.exporter)
  }

  /** The values of the map, in whatever order the iteration yields them. */
  method Values(m: PresenceMap) returns (values: seq<Record>)
    requires Keyed(m)
    ensures Members(values) == Candidates(m) && NoRepeats(values)
  {
    values := [];
    var rest, done := m.Keys, {};
    while rest != {}
      invariant rest + done == m.Keys && rest !! done
      invariant forall x :: x in values <==> exists id :: id in done && m[id] == x
      invariant NoRepeats(values)
      decreases rest
    {
      var id :| id in rest;
      assert m[id] !in values;
      values := values + [m[id]];
      rest, done := rest - {id}, done + {id};
    }
    assert done == m.Keys;
  }

  method RankCandidates(cfg: Config, m: PresenceMap, values: seq<Record>) returns (candidates: seq<Record>)
    requires Keyed(m) && Members(values) == Candidates(m) && NoRepeats(values)
    ensures IsRanking(ByScore(cfg), Candidates(m), candidates)
    ensures NoRepeats(candidates) && |candidates| == |m|
  {
    candidates := Sort(ByScore(cfg), values);
    ByScoreIsStrict(cfg, m);
    SortRanks(ByScore(cfg), Candidates(m), values);
    RankedNoRepeats(ByScore(cfg), Candidates(m), candidates);
    CandidatesCount(m);
  }

  /** Ranks the candidates and picks leaders, proxy and exporter, whatever order the map yields them in. */
  method Elect(cfg: Config, m: PresenceMap, id: string) returns (c: Choice)
    requires Keyed(m) && id in m
    ensures Elected(cfg, m, id, c)
  {
    var values := Values(m);
    var candidates := RankCandidates(cfg, m, values);
    var leaderCount := Min(Max(cfg.maxCoordinators, 1), |candidates|);
    var leaders := candidates[..leaderCount];
    PositionIsRank(cfg, m, candidates, id);
    ProxyIsProxy(cfg, m, candidates);
    ExporterIsExporter(cfg, m, candidates);
    assert Position(leaders, id).Some? ==> Position(leaders, id).value < leaderCount;
    hide IsProxy, IsExporter, Leads, Rank, SelectProxy, SelectExporter, Position, Keyed, IsRanking, NoRepeats;
    c := Choice(leaderCount, Position(leaders, id), SelectProxy(candidates, leaders).value,
                SelectExporter(cfg, candidates).value);
  }

  /** The role after an election: the epoch moves on exactly when the role flips. */
  function NextRole(role: Role, c: Choice, probe: Option<Probe>, now: U64): Role {
    var flipped := if role.isCoordinator == c.position.Some? then role
                   else role.(isCoordinator := c.position.Some?, epoch := SatAdd(role.epoch, 1), lastUpdateMs := now);
    flipped.(
      leaderRank := if c.position.Some? then c.position.value else U64_MAX,
      leaderCount := c.leaderCount,
      proxyAgentId := Some(c.proxy.agentId),
      proxyLatencyMs := Some(c.proxy.latencyMs),
      proxyAddr := c.proxy.statusAddr,
      isPrometheusExporter := c.exporter.agentId == role.agentId,
      exporterAgentId := Some(c.exporter.agentId),
      exporterAddr := c.exporter.statusAddr,
      exporterLatencyMs := if c.exporter.probe.Some? then Some(c.exporter.probe.value.latencyMs) else None,
      exporterBandwidthMbps := if c.exporter.probe.Some? then Some(c.exporter.probe.value.bandwidthMbps) else None,
      probe := probe)
  }

  predicate RankFits(c: Choice) {
    c.position.Some? ==> c.position.value < c.leaderCount
  }

  lemma NextRoleDecided(cfg: Config, m: PresenceMap, role: Role, c: Choice, probe: Option<Probe>, now: U64)
    requires Elected(cfg, m, role.agentId, c)
    ensures Decided(cfg, m, NextRole(role, c, probe, now))
    ensures RankFits(c)
  {
    hide IsProxy, IsExporter, Rank;
  }

  lemma NextRoleFlips(role: Role, flips: nat, c: Choice, probe: Option<Probe>, now: U64)
    requires Consistent(role, flips) && RankFits(c)
    ensures var next, flipped := NextRole(role, c, probe, now), role.isCoordinator != c.position.Some?;
            && flipped == (next.isCoordinator != role.isCoordinator)
            && Consistent(next, flips + if flipped then 1 else 0)
            && next.agentId == role.agentId && next.score == role.score && next.probe == probe
            && next.lastUpdateMs == if flipped then now else role.lastUpdateMs
  {
  }

  lemma WriteBack(live: PresenceMap, role: Role, now: U64)
    requires Keyed(live) && role.agentId in live
    ensures Keyed(live[role.agentId := Mirror(live[role.agentId], role, now)])
    ensures var r := Mirror(live[role.agentId], role, now);
            && SameBasis(r, live[role.agentId]) && r.latencyMs == live[role.agentId].latencyMs
            && r.isCoordinator == role.isCoordinator && r.epoch == role.epoch && r.lastSeenMs == now && r.probe == role.probe
  {
  }

  function FromPresence(p: Presence, seen: U64): Record {
    Record(p.agentId, p.agentVersion, if p.score.Some? then p.score.value else 0, p.cpuCores, p.os, p.arch,
           SatSub(seen, p.tsMs), p.addr, p.statusAddr, p.observedAddr, p.tags,
           p.isCoordinator.Some? && p.isCoordinator.value,
           if p.coordinatorEpoch.Some? then p.coordinatorEpoch.value else 0, seen, p.probe)
  }

  class Coordinator {
    const cfg: Config
    const cpuCores: U64
    const os: string
    const arch: string
    const tags: seq<string>
    const localVersion: string
    var role: Role
    var presence: PresenceMap
    var localProbe: Option<Probe>
    ghost var flips: nat
    ghost var selfAnnounced: bool

    /** Holds in every reachable state. */
    ghost predicate Valid()
      reads this
    {
      && Keyed(presence) && Consistent(role, flips)
      && (!selfAnnounced ==> OwnIsLocal(presence))
    }

    /** The agent sees itself at latency 0, with its own score, cores and tags. */
    predicate OwnIsLocal(m: PresenceMap)
      reads this
    {
      role.agentId in m ==> SameBasis(m[role.agentId], Own(0)) && m[role.agentId].latencyMs == 0
    }

    constructor (agentId: string, cfg: Config, score: U64, cpuCores: U64, os: string, arch: string,
                 tags: seq<string>, version: string, now: U64)
      ensures Valid() && flips == 0 && presence == map[] && localProbe == None && !selfAnnounced
      ensures role.agentId == agentId && role.score == score && this.cfg == cfg
      ensures role.leaderRank == role.leaderCount == 0 && !role.isCoordinator && role.epoch == 0
      ensures Own(now) == Record(agentId, Some(version), score, cpuCores, os, arch, 0, None, None, None, tags,
                                 false, 0, now, None)
    {
      this.cfg, this.cpuCores, this.os, this.arch, this.tags := cfg, cpuCores, os, arch, tags;
      localVersion, presence, localProbe, flips, selfAnnounced := version, map[], None, 0, false;
      role := Role(agentId, score, false, 0, 0, 0, now, None, None, None, false, None, None, None, None, None);
    }

    method UpdatePrometheusProbe(probe: Option<Probe>, now: U64)
      requires Valid()
      modifies this
      ensures Valid() && role == old(role) && flips == old(flips) && localProbe == probe
      ensures selfAnnounced == old(selfAnnounced)
      ensures presence == if role.agentId in old(presence)
                          then old(presence)[role.agentId := old(presence)[role.agentId].(probe := probe, lastSeenMs := now)]
                          else old(presence)
    {
      localProbe := probe;
      if role.agentId in presence {
        presence := presence[role.agentId := presence[role.agentId].(probe := probe, lastSeenMs := now)];
      }
    }

    method RecordPresence(p: Presence, seen: U64)
      requires Valid()
      modifies this
      ensures Valid() && role == old(role) && flips == old(flips) && localProbe == old(localProbe)
      ensures selfAnnounced == (old(selfAnnounced) || p.agentId == role.agentId)
      ensures presence == old(presence)[p.agentId := FromPresence(p, seen)]
      ensures var r := presence[p.agentId];
              && r.agentId == p.agentId && r.agentVersion == p.agentVersion
              && r.latencyMs == (if seen >= p.tsMs then seen - p.tsMs else 0) && r.lastSeenMs == seen
              && r.score == (if p.score.Some? then p.score.value else 0)
              && r.cpuCores == p.cpuCores && r.os == p.os && r.arch == p.arch && r.tags == p.tags
              && r.advertiseAddr == p.addr && r.statusAddr == p.statusAddr && r.observedAddr == p.observedAddr
              && (r.isCoordinator <==> p.isCoordinator == Some(true))
              && r.epoch == (if p.coordinatorEpoch.Some? then p.coordinatorEpoch.value else 0) && r.probe == p.probe
    {
      presence := presence[p.agentId := FromPresence(p, seen)];
      selfAnnounced := selfAnnounced || p.agentId == role.agentId;
    }

    /** The agent's own record as this election would write it. */
    function Own(now: U64): Record
      reads this
    {
      LocalRecord(role, localVersion, cpuCores, os, arch, tags, localProbe, now)
    }

    /**
     * One election. The candidates are met in an arbitrary order, as a hash map would yield them, and the
     * decision is nevertheless a function of the live map.
     */
    method Evaluate(now: U64)
      requires Valid()
      modifies this
      ensures Valid() && localProbe == old(localProbe) && selfAnnounced == old(selfAnnounced)
      ensures flips == old(flips) + if role.isCoordinator != old(role).isCoordinator then 1 else 0
      ensures role.agentId == old(role).agentId && role.score == old(role).score && role.probe == localProbe
      ensures role.lastUpdateMs == if role.isCoordinator != old(role).isCoordinator then now else old(role).lastUpdateMs
      ensures var live := old(Live(presence, cfg.presenceTtlMs, Own(now)));
              && Keyed(live) && Decided(cfg, live, role)
              && (!selfAnnounced ==> live[role.agentId].latencyMs == 0)
              && presence == live[role.agentId := Mirror(live[role.agentId], role, now)]
      ensures AllCurrent(presence, cfg.presenceTtlMs, now)
    {
      ghost var live := Live(presence, cfg.presenceTtlMs, Own(now));
      var id := role.agentId;
      LiveStaysCurrent(presence, cfg.presenceTtlMs, Own(now));
      Refresh(now);
      hide AllCurrent, Live, Decided, Elected, Keyed, Mirror, NextRole, Consistent;
      var choice := Elect(cfg, presence, id);
      NextRoleDecided(cfg, live, role, choice, localProbe, now);
      Apply(choice, now);
    }

    /** Takes up the elected role and copies it into the agent's own record. */
    method Apply(choice: Choice, now: U64)
      requires Valid() && role.agentId in presence && RankFits(choice)
      modifies this`role, this`flips, this`presence
      ensures Valid() && role == NextRole(old(role), choice, localProbe, now)
      ensures flips == old(flips) + if role.isCoordinator != old(role).isCoordinator then 1 else 0
      ensures role.agentId == old(role).agentId && role.score == old(role).score && role.probe == localProbe
      ensures role.lastUpdateMs == if role.isCoordinator != old(role).isCoordinator then now else old(role).lastUpdateMs
      ensures presence == old(presence)[role.agentId := Mirror(old(presence)[role.agentId], role, now)]
      ensures presence[role.agentId].isCoordinator == role.isCoordinator && presence[role.agentId].epoch == role.epoch
      ensures presence[role.agentId].lastSeenMs == now && presence[role.agentId].probe == localProbe
    {
      hide NextRole, Mirror, Keyed, Consistent, RankFits;
      NextRoleFlips(role, flips, choice, localProbe, now);
      flips := flips + if role.isCoordinator != choice.position.Some? then 1 else 0;
      role := NextRole(role, choice, localProbe, now);
      WriteBack(presence, role, now);
      presence := presence[role.agentId := Mirror(presence[role.agentId], role, now)];
    }

    /** Drops expired records and puts in or renews the agent's own. */
    method Refresh(now: U64)
      requires Keyed(presence)
      modifies this`presence
      ensures presence == old(Live(presence, cfg.presenceTtlMs, Own(now)))
      ensures Keyed(presence) && role.agentId in presence
      ensures presence[role.agentId].probe == localProbe && presence[role.agentId].lastSeenMs == now
      ensures role.agentId !in old(presence) ==>
                presence[role.agentId] ==
                Record(role.agentId, Some(localVersion), role.score, cpuCores, os, arch, 0, None, None, None, tags,
                       role.isCoordinator, role.epoch, now, localProbe)
    {
      var id, own := role.agentId, Own(now);
      presence := Prune(presence, cfg.presenceTtlMs, now);
      if id !in presence {
        presence := presence[id := own];
      }
      presence := presence[id := presence[id].(agentVersion := Some(localVersion), probe := localProbe, lastSeenMs := now)];
    }
  }
}
