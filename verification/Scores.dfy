/** What weights and readings mean for rank and for the exporter, told by the records' own numbers. */
module Scores {
  import opened Coordination
  import opened Election
  import opened Machine
  import opened Ranking

  lemma NotBothBetter(cfg: Config, a: Record, b: Record)
    ensures !(Better(cfg, a, b) && Better(cfg, b, a))
  {
    StringLessTotal(a.agentId, b.agentId);
    hide WeightedScore;
  }

  lemma RanksAboveIff(cfg: Config, m: PresenceMap, a: string, b: string)
    requires Keyed(m) && a in m && b in m && a != b
    ensures Rank(cfg, m, m[a]) < Rank(cfg, m, m[b]) <==> Better(cfg, m[a], m[b])
  {
    hide Better, Rank, Leads, IsRanking, StrictOn;
    ByScoreIsStrict(cfg, m);
    var r := RankingExists(ByScore(cfg), Candidates(m), Candidates(m));
    var i := IndexOf(cfg, m, r, a);
    var j := IndexOf(cfg, m, r, b);
    LeadersArePrefix(cfg, m, r, i);
    LeadersArePrefix(cfg, m, r, j);
    RankedInOrder(cfg, m, r, i, j);
    RankedInOrder(cfg, m, r, j, i);
    NotBothBetter(cfg, m[a], m[b]);
  }

  /** The weighted sum of cores, inverse latency, hash score as a fraction, and tags. */
  ghost predicate Weighs(cfg: Config, r: Record, x: real) {
    x == r.cpuCores as real * cfg.weightCpu
         + 1_000_000.0 / (1.0 + r.latencyMs as real) * cfg.weightLatency
         + r.score as real / 18446744073709551615.0 * cfg.weightHash
         + cfg.capability(r.tags) * cfg.weightCapability
  }

  lemma WeighsItsScore(cfg: Config, r: Record, x: real)
    ensures Weighs(cfg, r, x) <==> x == WeightedScore(cfg, r)
  {
  }

  /** Of two candidates the one that weighs more ranks higher, and between equals the smaller id. */
  lemma RankOrderIff(cfg: Config, m: PresenceMap, a: string, b: string, x: real, y: real)
    requires Keyed(m) && a in m && b in m && a != b && Weighs(cfg, m[a], x) && Weighs(cfg, m[b], y)
    ensures Rank(cfg, m, m[a]) < Rank(cfg, m, m[b]) <==> x > y || (x == y && StringLess(a, b))
  {
    hide Rank, WeightedScore, Weighs;
    RanksAboveIff(cfg, m, a, b);
    WeighsItsScore(cfg, m[a], x);
    WeighsItsScore(cfg, m[b], y);
  }

  lemma LatencyScoreStrict(low: U64, high: U64)
    requires low < high
    ensures LatencyScore(high) < LatencyScore(low)
  {
    var a, b := 1.0 + low as real, 1.0 + high as real;
    var x, y := 1_000_000.0 / a, 1_000_000.0 / b;
    assert x * a == 1_000_000.0 && y * b == 1_000_000.0 && y > 0.0;
    if y >= x {
      assert y * b > y * a >= x * a;
    }
  }

  lemma Scaled(x: real, y: real, w: real)
    requires x < y && w > 0.0
    ensures x * w < y * w
  {
  }

  lemma HigherScoreRanks(cfg: Config, m: PresenceMap, a: string, b: string)
    requires Keyed(m) && a in m && b in m && WeightedScore(cfg, m[a]) > WeightedScore(cfg, m[b])
    ensures Rank(cfg, m, m[a]) < Rank(cfg, m, m[b])
  {
    RanksAboveIff(cfg, m, a, b);
    hide Rank, WeightedScore;
  }

  /** With positive weights each single advantage over an otherwise equal candidate ranks strictly higher: cores, */
  lemma MoreCoresRankHigher(cfg: Config, m: PresenceMap, a: string, b: string)
    requires Keyed(m) && a in m && b in m && cfg.weightCpu > 0.0 && m[a].cpuCores > m[b].cpuCores
    requires m[a].latencyMs == m[b].latencyMs && m[a].score == m[b].score && m[a].tags == m[b].tags
    ensures Rank(cfg, m, m[a]) < Rank(cfg, m, m[b])
  {
    Scaled(m[b].cpuCores as real, m[a].cpuCores as real, cfg.weightCpu);
    hide LatencyScore, Rank;
    HigherScoreRanks(cfg, m, a, b);
  }

  /** latency, */
  lemma LowerLatencyRanksHigher(cfg: Config, m: PresenceMap, a: string, b: string)
    requires Keyed(m) && a in m && b in m && cfg.weightLatency > 0.0 && m[a].latencyMs < m[b].latencyMs
    requires SameBasis(m[a], m[b])
    ensures Rank(cfg, m, m[a]) < Rank(cfg, m, m[b])
  {
    LatencyScoreStrict(m[a].latencyMs, m[b].latencyMs);
    Scaled(LatencyScore(m[b].latencyMs), LatencyScore(m[a].latencyMs), cfg.weightLatency);
    hide LatencyScore, Rank;
    HigherScoreRanks(cfg, m, a, b);
  }

  /** hash score, */
  lemma HigherHashRanksHigher(cfg: Config, m: PresenceMap, a: string, b: string)
    requires Keyed(m) && a in m && b in m && cfg.weightHash > 0.0 && m[a].score > m[b].score
    requires m[a].latencyMs == m[b].latencyMs && m[a].cpuCores == m[b].cpuCores && m[a].tags == m[b].tags
    ensures Rank(cfg, m, m[a]) < Rank(cfg, m, m[b])
  {
    assert m[b].score as real / U64_MAX as real < m[a].score as real / U64_MAX as real;
    Scaled(m[b].score as real / U64_MAX as real, m[a].score as real / U64_MAX as real, cfg.weightHash);
    hide LatencyScore, Rank;
    HigherScoreRanks(cfg, m, a, b);
  }

  /** tags; */
  lemma BetterTagsRankHigher(cfg: Config, m: PresenceMap, a: string, b: string)
    requires Keyed(m) && a in m && b in m && cfg.weightCapability > 0.0
    requires cfg.capability(m[a].tags) > cfg.capability(m[b].tags)
    requires m[a].latencyMs == m[b].latencyMs && m[a].cpuCores == m[b].cpuCores && m[a].score == m[b].score
    ensures Rank(cfg, m, m[a]) < Rank(cfg, m, m[b])
  {
    Scaled(cfg.capability(m[b].tags), cfg.capability(m[a].tags), cfg.weightCapability);
    hide LatencyScore, Rank;
    HigherScoreRanks(cfg, m, a, b);
  }

  /** and between equals the smaller id does. */
  lemma SmallerIdRanksHigher(cfg: Config, m: PresenceMap, a: string, b: string)
    requires Keyed(m) && a in m && b in m && StringLess(a, b)
    requires SameBasis(m[a], m[b]) && m[a].latencyMs == m[b].latencyMs
    ensures Rank(cfg, m, m[a]) < Rank(cfg, m, m[b])
  {
    StringLessTotal(a, b);
    assert WeightedScore(cfg, m[a]) == WeightedScore(cfg, m[b]);
    hide WeightedScore, Rank;
    RanksAboveIff(cfg, m, a, b);
  }

  // ------------------------------------------------------------- the exporter

  /** The exporter has a ready probe if any candidate has. */
  lemma ReadyBeatsUnready(cfg: Config, m: PresenceMap, e: Record, id: string)
    requires IsExporter(cfg, m, e) && id in m && m[id].probe.Some? && m[id].probe.value.ready
    ensures e.probe.Some? && e.probe.value.ready
  {
  }

  /** Among ready candidates the export sum decides, then the id. */
  lemma ReadyExporterHasLargestSum(cfg: Config, m: PresenceMap, e: Record, id: string)
    requires Keyed(m) && IsExporter(cfg, m, e) && id in m && id != e.agentId
    requires e.probe.Some? && e.probe.value.ready && m[id].probe.Some? && m[id].probe.value.ready
    requires e.probe.value.bandwidthMbps >= 0.0 && m[id].probe.value.bandwidthMbps >= 0.0
    requires forall x: real :: x >= 0.0 ==> cfg.ln1p(x) >= 0.0
    ensures var p, q := e.probe.value, m[id].probe.value;
            var x := 1_000_000.0 / (1.0 + p.latencyMs as real) * cfg.weightExporterLatency
                     + cfg.ln1p(p.bandwidthMbps) * 100_000.0 * cfg.weightExporterBandwidth
                     + WeightedScore(cfg, e) * 0.05;
            var y := 1_000_000.0 / (1.0 + q.latencyMs as real) * cfg.weightExporterLatency
                     + cfg.ln1p(q.bandwidthMbps) * 100_000.0 * cfg.weightExporterBandwidth
                     + WeightedScore(cfg, m[id]) * 0.05;
            x > y || (x == y && StringLess(e.agentId, id))
  {
    hide WeightedScore;
    assert BetterExporter(cfg, e, m[id]);
  }

  /** Among candidates without a ready probe the weighted sum decides, then the id. */
  lemma UnreadyExporterHasLargestScore(cfg: Config, m: PresenceMap, e: Record, id: string)
    requires Keyed(m) && IsExporter(cfg, m, e) && id in m && id != e.agentId
    requires !(e.probe.Some? && e.probe.value.ready)
    ensures !(m[id].probe.Some? && m[id].probe.value.ready)
    ensures WeightedScore(cfg, e) > WeightedScore(cfg, m[id])
            || (WeightedScore(cfg, e) == WeightedScore(cfg, m[id]) && StringLess(e.agentId, id))
  {
    hide WeightedScore;
    assert BetterExporter(cfg, e, m[id]);
  }

  /** Alike in cores, tags, hash score and latency, both with a ready probe. */
  predicate ReadyTwins(a: Record, b: Record) {
    && SameBasis(a, b) && a.latencyMs == b.latencyMs
    && a.probe.Some? && a.probe.value.ready && b.probe.Some? && b.probe.value.ready
  }

  lemma NotBetterNotExporter(cfg: Config, m: PresenceMap, id: string, other: string)
    requires Keyed(m) && id in m && other in m && id != other && !BetterExporter(cfg, m[id], m[other])
    ensures !IsExporter(cfg, m, m[id])
  {
    hide BetterExporter;
  }

  /** Of two ready candidates alike but for probe latency the slower is never the exporter. */
  lemma SlowerProbeNeverExports(cfg: Config, m: PresenceMap, fast: string, slow: string)
    requires Keyed(m) && fast in m && slow in m && cfg.weightExporterLatency > 0.0 && ReadyTwins(m[fast], m[slow])
    requires m[fast].probe.value.bandwidthMbps == m[slow].probe.value.bandwidthMbps
    requires m[fast].probe.value.latencyMs < m[slow].probe.value.latencyMs
    ensures !IsExporter(cfg, m, m[slow])
  {
    var p, q := m[fast].probe.value, m[slow].probe.value;
    LatencyScoreStrict(p.latencyMs, q.latencyMs);
    Scaled(LatencyScore(q.latencyMs), LatencyScore(p.latencyMs), cfg.weightExporterLatency);
    hide LatencyScore;
    assert WeightedScore(cfg, m[fast]) == WeightedScore(cfg, m[slow]);
    hide WeightedScore;
    NotBetterNotExporter(cfg, m, slow, fast);
  }

  /** Nor is the one with the smaller bandwidth, for a logarithm that grows and is not negative. */
  lemma NarrowerNeverExports(cfg: Config, m: PresenceMap, wide: string, narrow: string)
    requires Keyed(m) && wide in m && narrow in m && cfg.weightExporterBandwidth > 0.0 && ReadyTwins(m[wide], m[narrow])
    requires m[wide].probe.value.latencyMs == m[narrow].probe.value.latencyMs
    requires 0.0 <= m[narrow].probe.value.bandwidthMbps < m[wide].probe.value.bandwidthMbps
    requires forall x: real, y: real :: 0.0 <= x < y ==> 0.0 <= cfg.ln1p(x) < cfg.ln1p(y)
    ensures !IsExporter(cfg, m, m[narrow])
  {
    var x, y := cfg.ln1p(m[narrow].probe.value.bandwidthMbps), cfg.ln1p(m[wide].probe.value.bandwidthMbps);
    assert 0.0 <= x < y;
    Scaled(x * 100_000.0, y * 100_000.0, cfg.weightExporterBandwidth);
    assert WeightedScore(cfg, m[wide]) == WeightedScore(cfg, m[narrow]);
    hide WeightedScore, LatencyScore;
    NotBetterNotExporter(cfg, m, narrow, wide);
  }

  /** Of two candidates alike but for the id the larger id is never the exporter. */
  lemma LargerIdNeverExports(cfg: Config, m: PresenceMap, small: string, large: string)
    requires Keyed(m) && small in m && large in m && StringLess(small, large)
    requires m[large] == m[small].(agentId := large)
    ensures !IsExporter(cfg, m, m[large])
  {
    StringLessTotal(small, large);
    assert WeightedScore(cfg, m[small]) == WeightedScore(cfg, m[large]);
    hide WeightedScore, LatencyScore;
    NotBetterNotExporter(cfg, m, large, small);
  }

  lemma SameWeighted(cfg: Config, e: Record, probe: Probe)
    ensures WeightedScore(cfg, e.(probe := Some(probe))) == WeightedScore(cfg, e)
  {
  }

  lemma FasterExportsNoLess(cfg: Config, e: Record, latencyMs: U64)
    requires cfg.weightExporterLatency >= 0.0 && e.probe.Some? && latencyMs <= e.probe.value.latencyMs
    ensures var faster := e.(probe := Some(e.probe.value.(latencyMs := latencyMs)));
            Ready(faster) == Ready(e) && ExporterScore(cfg, faster) >= ExporterScore(cfg, e)
  {
    LatencyScoreDecreases(latencyMs, e.probe.value.latencyMs);
    hide LatencyScore, WeightedScore, MaxReal;
    assert LatencyScore(e.probe.value.latencyMs) * cfg.weightExporterLatency
        <= LatencyScore(latencyMs) * cfg.weightExporterLatency;
    SameWeighted(cfg, e, e.probe.value.(latencyMs := latencyMs));
  }

  /** Answering its probe faster leaves the exporter in place. */
  lemma FasterProbeKeepsExporter(cfg: Config, m: PresenceMap, e: Record, latencyMs: U64)
    requires Keyed(m) && IsExporter(cfg, m, e) && cfg.weightExporterLatency >= 0.0
    requires e.probe.Some? && latencyMs <= e.probe.value.latencyMs
    ensures var faster := e.(probe := Some(e.probe.value.(latencyMs := latencyMs)));
            IsExporter(cfg, m[e.agentId := faster], faster)
  {
    var faster := e.(probe := Some(e.probe.value.(latencyMs := latencyMs)));
    var after := m[e.agentId := faster];
    hide WeightedScore, ExporterScore, Ready;
    FasterExportsNoLess(cfg, e, latencyMs);
    forall id | id in after && id != faster.agentId
      ensures BetterExporter(cfg, faster, after[id])
    {
      assert BetterExporter(cfg, e, m[id]);
    }
  }
}
