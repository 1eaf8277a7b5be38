/** The autoscaler tick: how many hosts are wanted, which are recruited, and in what order over whole runs. */
module Autoscaler {
  import opened Lists
  import opened Machine

  datatype Config = Config(
    recruitHosts: seq<string>, maxRecruitsPerTick: nat,
    localCpuPct: real, localMemoryPct: real, coordinationLatencyMs: U64, prometheusLatencyMs: U64,
    slurmPendingJobs: U32, slurmAllocatedRatio: real)

  datatype Slurm = Slurm(jobsPending: U32, nodesAllocated: U32, nodesTotal: U32)

  /** What one tick reads from the host, the coordination role and the Slurm snapshot. */
  datatype Reading = Reading(
    cpuPct: real, memoryPct: real, isCoordinator: bool, leaderRank: nat,
    proxyLatencyMs: Option<U64>, exporterLatencyMs: Option<U64>, probeLatencyMs: Option<U64>, slurm: Option<Slurm>)

  datatype Action = Idle | Standby | NoUnusedHosts | Recruited(host: string) | Failed(host: string)

  function One(b: bool): nat {
    if b then 1 else 0
  }

  function PrometheusLatency(r: Reading): Option<U64> {
    if r.exporterLatencyMs.Some? then r.exporterLatencyMs else r.probeLatencyMs
  }

  function AllocatedRatio(s: Slurm): real {
    if s.nodesTotal == 0 then 0.0 else s.nodesAllocated as real / s.nodesTotal as real
  }

  /** How many of the six pressure signals are raised. */
  function Pressure(cfg: Config, r: Reading): (n: nat)
    ensures n <= 6
  {
    One(r.cpuPct >= cfg.localCpuPct)
    + One(r.memoryPct >= cfg.localMemoryPct)
    + One(r.proxyLatencyMs.Some? && r.proxyLatencyMs.value >= cfg.coordinationLatencyMs)
    + One(PrometheusLatency(r).Some? && PrometheusLatency(r).value >= cfg.prometheusLatencyMs)
    + One(r.slurm.Some? && r.slurm.value.jobsPending >= cfg.slurmPendingJobs)
    + One(r.slurm.Some? && AllocatedRatio(r.slurm.value) >= cfg.slurmAllocatedRatio)
  }

  function Requested(cfg: Config, r: Reading): nat {
    Min(if Pressure(cfg, r) == 0 then 0 else 1 + (Pressure(cfg, r) - 1) / 2, |cfg.recruitHosts|)
  }

  predicate OptionAtLeast(more: Option<U64>, less: Option<U64>) {
    less.Some? ==> more.Some? && more.value >= less.value
  }

  /** `more` reads at least as high as `less` on every scale. */
  predicate AtLeast(more: Reading, less: Reading) {
    && more.cpuPct >= less.cpuPct && more.memoryPct >= less.memoryPct
    && OptionAtLeast(more.proxyLatencyMs, less.proxyLatencyMs)
    && OptionAtLeast(PrometheusLatency(more), PrometheusLatency(less))
    && (less.slurm.Some? ==> more.slurm.Some?)
    && (less.slurm.Some? ==> more.slurm.value.jobsPending >= less.slurm.value.jobsPending)
    && (less.slurm.Some? ==> AllocatedRatio(more.slurm.value) >= AllocatedRatio(less.slurm.value))
  }

  /** More pressure never asks for fewer hosts. */
  lemma RequestedMonotone(cfg: Config, more: Reading, less: Reading)
    requires AtLeast(more, less)
    ensures Requested(cfg, less) <= Requested(cfg, more) <= 3
  {
    assert Pressure(cfg, less) <= Pressure(cfg, more);
  }

  /** Some reading has reached its threshold. */
  predicate Pressured(cfg: Config, r: Reading) {
    || r.cpuPct >= cfg.localCpuPct || r.memoryPct >= cfg.localMemoryPct
    || (r.proxyLatencyMs.Some? && r.proxyLatencyMs.value >= cfg.coordinationLatencyMs)
    || (r.exporterLatencyMs.Some? && r.exporterLatencyMs.value >= cfg.prometheusLatencyMs)
    || (r.exporterLatencyMs.None? && r.probeLatencyMs.Some? && r.probeLatencyMs.value >= cfg.prometheusLatencyMs)
    || (r.slurm.Some? && r.slurm.value.jobsPending >= cfg.slurmPendingJobs)
    || (r.slurm.Some? && AllocatedRatio(r.slurm.value) >= cfg.slurmAllocatedRatio)
  }

  lemma RequestedIff(cfg: Config, r: Reading)
    ensures Requested(cfg, r) > 0 <==> cfg.recruitHosts != [] && Pressured(cfg, r)
  {
  }

  datatype Signal = Cpu | Memory | Coordination | Prometheus | SlurmPending | SlurmAllocated

  const ALL_SIGNALS := [Cpu, Memory, Coordination, Prometheus, SlurmPending, SlurmAllocated]

  /** A signal is raised when its reading exists and has reached the threshold that belongs to it. */
  predicate Raised(cfg: Config, r: Reading, s: Signal) {
    match s
    case Cpu => r.cpuPct >= cfg.localCpuPct
    case Memory => r.memoryPct >= cfg.localMemoryPct
    case Coordination => r.proxyLatencyMs.Some? && r.proxyLatencyMs.value >= cfg.coordinationLatencyMs
    case Prometheus =>
      || (r.exporterLatencyMs.Some? && r.exporterLatencyMs.value >= cfg.prometheusLatencyMs)
      || (r.exporterLatencyMs.None? && r.probeLatencyMs.Some? && r.probeLatencyMs.value >= cfg.prometheusLatencyMs)
    case SlurmPending => r.slurm.Some? && r.slurm.value.jobsPending >= cfg.slurmPendingJobs
    case SlurmAllocated =>
      && r.slurm.Some?
      && if r.slurm.value.nodesTotal == 0 then 0.0 >= cfg.slurmAllocatedRatio
         else r.slurm.value.nodesAllocated as real >= cfg.slurmAllocatedRatio * r.slurm.value.nodesTotal as real
  }

  function Signals(cfg: Config, r: Reading): set<Signal> {
    set s: Signal | Raised(cfg, r, s)
  }

  lemma RatioReached(s: Slurm, threshold: real)
    requires s.nodesTotal != 0
    ensures AllocatedRatio(s) >= threshold <==> s.nodesAllocated as real >= threshold * s.nodesTotal as real
  {
    var n := s.nodesTotal as real;
    assert AllocatedRatio(s) * n == s.nodesAllocated as real;
    if AllocatedRatio(s) >= threshold {
      assert AllocatedRatio(s) * n >= threshold * n;
    } else {
      assert AllocatedRatio(s) * n < threshold * n;
    }
  }

  lemma EverySignal(x: Signal)
    ensures x in ALL_SIGNALS
  {
    var all := ALL_SIGNALS;
    assert all[0] == Cpu && all[1] == Memory && all[2] == Coordination;
    assert all[3] == Prometheus && all[4] == SlurmPending && all[5] == SlurmAllocated;
  }

  function Tally(s: set<Signal>, all: seq<Signal>): nat {
    if all == [] then 0 else One(all[0] in s) + Tally(s, all[1..])
  }

  lemma {:induction false} TallyIgnores(s: set<Signal>, all: seq<Signal>, x: Signal)
    requires x !in all
    ensures Tally(s - {x}, all) == Tally(s, all)
  {
    if all != [] {
      TallyIgnores(s, all[1..], x);
    }
  }

  lemma {:induction false} TallyCounts(s: set<Signal>, all: seq<Signal>)
    requires NoRepeats(all) && forall x :: x in s ==> x in all
    ensures Tally(s, all) == |s|
  {
    if all == [] {
      assert s == {};
    } else {
      var x, rest := all[0], all[1..];
      assert x !in rest && forall y :: y in all ==> y == x || y in rest;
      TallyIgnores(s, rest, x);
      TallyCounts(s - {x}, rest);
      assert s == if x in s then (s - {x}) + {x} else s - {x};
    }
  }

  lemma TallyCons(s: set<Signal>, x: Signal, rest: seq<Signal>)
    ensures Tally(s, [x] + rest) == One(x in s) + Tally(s, rest)
  {
    assert ([x] + rest)[1..] == rest;
  }

  lemma TallySix(s: set<Signal>)
    ensures Tally(s, ALL_SIGNALS) ==
            One(Cpu in s) + (One(Memory in s) + (One(Coordination in s) + (One(Prometheus in s)
            + (One(SlurmPending in s) + One(SlurmAllocated in s)))))
  {
    var one := [SlurmAllocated];
    var two := [SlurmPending] + one;
    var three := [Prometheus] + two;
    var four := [Coordination] + three;
    var five := [Memory] + four;
    assert ALL_SIGNALS == [Cpu] + five;
    TallyCons(s, SlurmAllocated, []);
    TallyCons(s, SlurmPending, one);
    TallyCons(s, Prometheus, two);
    TallyCons(s, Coordination, three);
    TallyCons(s, Memory, four);
    TallyCons(s, Cpu, five);
    assert [SlurmAllocated] + [] == one;
    assert Tally(s, []) == 0;
    hide Tally, One;
  }

  lemma PressureCountsSignals(cfg: Config, r: Reading)
    ensures Pressure(cfg, r) == |Signals(cfg, r)|
  {
    var s := Signals(cfg, r);
    forall x | x in s
      ensures x in ALL_SIGNALS
    {
      EverySignal(x);
    }
    TallyCounts(s, ALL_SIGNALS);
    TallySix(s);
    if r.slurm.Some? && r.slurm.value.nodesTotal != 0 {
      RatioReached(r.slurm.value, cfg.slurmAllocatedRatio);
    }
    hide Tally;
  }

  /** One host for one or two signals, two for three or four, three for five or six, as far as the list goes. */
  lemma RequestedByCount(cfg: Config, r: Reading)
    ensures Signals(cfg, r) == {} ==> Requested(cfg, r) == 0
    ensures |Signals(cfg, r)| > 0 && |cfg.recruitHosts| >= 3 ==>
              2 * Requested(cfg, r) - 1 <= |Signals(cfg, r)| <= 2 * Requested(cfg, r)
    ensures |Signals(cfg, r)| > 0 && |cfg.recruitHosts| < 3 ==>
              exists n: nat :: 2 * n - 1 <= |Signals(cfg, r)| <= 2 * n
                && Requested(cfg, r) == if n <= |cfg.recruitHosts| then n else |cfg.recruitHosts|
  {
    PressureCountsSignals(cfg, r);
    hide Signals, Pressure;
    if |Signals(cfg, r)| > 0 {
      var n := 1 + (|Signals(cfg, r)| - 1) / 2;
      assert 2 * n - 1 <= |Signals(cfg, r)| <= 2 * n;
    }
  }

  predicate IsController(r: Reading) {
    r.isCoordinator && r.leaderRank == 0
  }

  function FindUnused(hosts: seq<string>, used: set<string>): Option<string> {
    if hosts == [] then None
    else if hosts[0] !in used then Some(hosts[0])
    else FindUnused(hosts[1..], used)
  }

  lemma {:induction false} FindUnusedConcat(a: seq<string>, b: seq<string>, used: set<string>)
    ensures FindUnused(a + b, used) ==
            if FindUnused(a, used).Some? then FindUnused(a, used) else FindUnused(b, used)
  {
    if a == [] {
      assert a + b == b;
    } else {
      FindUnusedConcat(a[1..], b, used);
      assert (a + b)[1..] == a[1..] + b;
    }
  }

  lemma FindUnusedOne(h: string, used: set<string>)
    ensures FindUnused([h], used) == if h in used then None else Some(h)
  {
  }

  lemma {:induction false} NoneUnused(hosts: seq<string>, used: set<string>)
    requires forall h :: h in hosts ==> h in used
    ensures FindUnused(hosts, used) == None
  {
    if hosts != [] {
      NoneUnused(hosts[1..], used);
    }
  }

  /** With the first `k` distinct hosts in use, the search returns the next one. */
  lemma {:induction false} NextUnused(hosts: seq<string>, k: nat)
    requires k <= |Distinct(hosts)|
    ensures FindUnused(hosts, Members(Distinct(hosts)[..k])) ==
            if k < |Distinct(hosts)| then Some(Distinct(hosts)[k]) else None
  {
    if hosts != [] {
      var front, last := hosts[..|hosts| - 1], hosts[|hosts| - 1];
      var d, used := Distinct(front), Members(Distinct(hosts)[..k]);
      assert hosts == front + [last];
      DistinctFacts(front);
      FindUnusedConcat(front, [last], used);
      hide FindUnused;
      FindUnusedOne(last, used);
      if k <= |d| {
        assert Distinct(hosts)[..k] == d[..k];
        NextUnused(front, k);
        assert k == |d| ==> d[..k] == d;
      } else {
        assert Distinct(hosts)[..k] == d + [last];
        NoneUnused(front, used);
      }
    }
  }

  lemma TakeSnoc(d: seq<string>, k: nat)
    requires k < |d|
    ensures Members(d[..k + 1]) == Members(d[..k]) + {d[k]}
  {
    assert d[..k + 1] == d[..k] + [d[k]];
  }

  lemma NotYet(d: seq<string>, k: nat)
    requires k < |d| && NoRepeats(d)
    ensures d[k] !in Members(d[..k])
  {
  }

  lemma {:induction false} TakeCount(d: seq<string>, k: nat)
    requires k <= |d| && NoRepeats(d)
    ensures |Members(d[..k])| == k
  {
    if k == 0 {
      assert Members(d[..0]) == {};
    } else {
      hide *;
      TakeCount(d, k - 1);
      TakeSnoc(d, k - 1);
      NotYet(d, k - 1);
    }
  }

  // ------------------------------------------------------------ one tick

  /** How many more hosts a tick may take when `used` are taken. */
  function Quota(cfg: Config, used: nat, r: Reading): (q: nat)
    ensures q <= cfg.maxRecruitsPerTick
  {
    if !IsController(r) then 0
    else Max(0, Min(Min(Requested(cfg, r), |Distinct(cfg.recruitHosts)|) - used, cfg.maxRecruitsPerTick))
  }

  /** How many of the first `n` answers are successes before the first failure. */
  function Successes(answers: nat -> bool, n: nat): (j: nat)
    ensures j <= n
    ensures forall i :: 0 <= i < j ==> answers(i)
    ensures j < n ==> !answers(j)
  {
    if n == 0 then 0
    else
      var j := Successes(answers, n - 1);
      if j == n - 1 && answers(n - 1) then n else j
  }

  lemma {:induction false} SuccessesIs(answers: nat -> bool, n: nat, j: nat)
    requires j <= n && (forall i :: 0 <= i < j ==> answers(i)) && (j < n ==> !answers(j))
    ensures Successes(answers, n) == j
  {
    if j < n {
      SuccessesIs(answers, n - 1, j);
    } else if n > 0 {
      SuccessesIs(answers, n - 1, n - 1);
    }
  }

  /** One tick: its reading, and the answers that successive recruit requests of that tick would get. */
  datatype Tick = Tick(reading: Reading, answers: nat -> bool)

  function Taken(cfg: Config, used: nat, t: Tick): (j: nat)
    ensures j <= Quota(cfg, used, t.reading)
  {
    Successes(t.answers, Quota(cfg, used, t.reading))
  }

  /** The recruit loop ran out of unused hosts before it met the request. */
  predicate RanOut(cfg: Config, used: nat, t: Tick) {
    && IsController(t.reading)
    && used + Taken(cfg, used, t) == |Distinct(cfg.recruitHosts)|
    && |Distinct(cfg.recruitHosts)| < Requested(cfg, t.reading)
    && Taken(cfg, used, t) < cfg.maxRecruitsPerTick
  }

  lemma QuotaLeft(cfg: Config, used: nat, r: Reading, j: nat)
    requires IsController(r) && j <= cfg.maxRecruitsPerTick
    requires used + j <= |Distinct(cfg.recruitHosts)| && (j > 0 ==> used + j <= Requested(cfg, r))
    ensures j <= Quota(cfg, used, r)
    ensures j < Quota(cfg, used, r) <==>
              used + j < Requested(cfg, r) && j < cfg.maxRecruitsPerTick && used + j < |Distinct(cfg.recruitHosts)|
  {
    hide Distinct, Requested;
  }

  /** `recruited` holds exactly the first `k` distinct hosts. */
  ghost predicate AtPrefix(hosts: seq<string>, recruited: set<string>, k: nat) {
    k <= |Distinct(hosts)| && recruited == Members(Distinct(hosts)[..k])
  }

  lemma PrefixStart(hosts: seq<string>)
    ensures AtPrefix(hosts, {}, 0)
  {
  }

  lemma PrefixSize(hosts: seq<string>, recruited: set<string>, k: nat)
    requires AtPrefix(hosts, recruited, k)
    ensures |recruited| == k <= |Distinct(hosts)|
  {
    DistinctFacts(hosts);
    TakeCount(Distinct(hosts), k);
  }

  lemma PrefixNext(hosts: seq<string>, recruited: set<string>, k: nat)
    requires AtPrefix(hosts, recruited, k)
    ensures FindUnused(hosts, recruited) == if k < |Distinct(hosts)| then Some(Distinct(hosts)[k]) else None
    ensures k < |Distinct(hosts)| ==> AtPrefix(hosts, recruited + {Distinct(hosts)[k]}, k + 1)
  {
    hide FindUnused, Distinct;
    NextUnused(hosts, k);
    if k < |Distinct(hosts)| {
      TakeSnoc(Distinct(hosts), k);
    }
  }

  lemma SliceSnoc(d: seq<string>, i: nat, k: nat)
    requires i <= k < |d|
    ensures d[i..k] + [d[k]] == d[i..k + 1]
  {
  }

  /** How many hosts are taken after a run of ticks. */
  function UsedAfter(cfg: Config, ticks: seq<Tick>): nat {
    if ticks == [] then 0
    else
      var before := UsedAfter(cfg, ticks[..|ticks| - 1]);
      before + Taken(cfg, before, ticks[|ticks| - 1])
  }

  lemma UsedAfterSnoc(cfg: Config, ticks: seq<Tick>, t: Tick)
    ensures UsedAfter(cfg, ticks + [t]) == UsedAfter(cfg, ticks) + Taken(cfg, UsedAfter(cfg, ticks), t)
  {
    assert (ticks + [t])[..|ticks|] == ticks;
  }

  /** The asked hosts and the action after `used - start` successes. */
  predicate Going(d: seq<string>, start: nat, used: nat, asked: seq<string>, action: Action) {
    && start <= used <= |d| && asked == d[start..used]
    && action == if used > start then Recruited(d[used - 1]) else Idle
  }

  /** The four ways in which the recruit loop ends, with what it asked and what it reports. */
  predicate Stopped(cfg: Config, requested: nat, answers: nat -> bool, start: nat, used: nat,
                    asked: seq<string>, action: Action)
  {
    var d := Distinct(cfg.recruitHosts);
    && start <= used <= |d|
    && if used >= requested || used - start >= cfg.maxRecruitsPerTick then Going(d, start, used, asked, action)
       else if used == |d| then asked == d[start..used] && action == NoUnusedHosts
       else !answers(used - start) && asked == d[start..used + 1] && action == Failed(d[used])
  }

  lemma GoesOn(d: seq<string>, start: nat, used: nat, asked: seq<string>, action: Action)
    requires Going(d, start, used, asked, action) && used < |d|
    ensures Going(d, start, used + 1, asked + [d[used]], Recruited(d[used]))
  {
    SliceSnoc(d, start, used);
  }

  lemma WhyStopped(cfg: Config, requested: nat, answers: nat -> bool, start: nat, used: nat,
                   asked: seq<string>, action: Action)
    requires Going(Distinct(cfg.recruitHosts), start, used, asked, action)
    ensures used >= requested || used - start >= cfg.maxRecruitsPerTick ==>
              Stopped(cfg, requested, answers, start, used, asked, action)
    ensures used < requested && used - start < cfg.maxRecruitsPerTick ==>
              var d := Distinct(cfg.recruitHosts);
              && (used == |d| ==> Stopped(cfg, requested, answers, start, used, asked, NoUnusedHosts))
              && (used < |d| && !answers(used - start) ==>
                    Stopped(cfg, requested, answers, start, used, asked + [d[used]], Failed(d[used])))
  {
    hide Distinct;
    if used < |Distinct(cfg.recruitHosts)| {
      SliceSnoc(Distinct(cfg.recruitHosts), start, used);
    }
  }

  lemma NoQuota(cfg: Config, used: nat, t: Tick)
    requires !IsController(t.reading)
    ensures Quota(cfg, used, t.reading) == 0 && Taken(cfg, used, t) == 0
  {
  }

  class Scaler {
    const cfg: Config
    var recruitedHosts: set<string>
    ghost var used: nat
    ghost var history: seq<Tick>

    ghost predicate Valid()
      reads this
    {
      AtPrefix(cfg.recruitHosts, recruitedHosts, used) && used == UsedAfter(cfg, history)
    }

    constructor (cfg: Config)
      ensures Valid() && this.cfg == cfg && history == []
    {
      this.cfg := cfg;
      recruitedHosts, used, history := {}, 0, [];
      PrefixStart(cfg.recruitHosts);
    }

    /** Which hosts the tick asks for, which it gets, and what it reports, in terms of the distinct host list. */
    method RunTick(t: Tick) returns (asked: seq<string>, action: Action)
      requires Valid()
      modifies this
      ensures Valid() && history == old(history) + [t] && used == old(used) + Taken(cfg, old(used), t)
      ensures var d, q := Distinct(cfg.recruitHosts), Quota(cfg, old(used), t.reading);
              asked == d[old(used)..used] + if used < old(used) + q then [d[used]] else []
      ensures action ==
              if !IsController(t.reading) then Standby
              else if used < old(used) + Quota(cfg, old(used), t.reading)
              then Failed(Distinct(cfg.recruitHosts)[used])
              else if RanOut(cfg, old(used), t) then NoUnusedHosts
              else if used > old(used) then Recruited(Distinct(cfg.recruitHosts)[used - 1])
              else Idle
    {
      hide Distinct, Requested, FindUnused, Quota, Members, Successes, AtPrefix, UsedAfter;
      UsedAfterSnoc(cfg, history, t);
      PrefixSize(cfg.recruitHosts, recruitedHosts, used);
      if IsController(t.reading) {
        ghost var start := used;
        asked, action := Recruit(Requested(cfg, t.reading), t.answers);
        QuotaLeft(cfg, start, t.reading, used - start);
        SuccessesIs(t.answers, Quota(cfg, start, t.reading), used - start);
      } else {
        NoQuota(cfg, used, t);
        asked, action := [], Standby;
      }
      history := history + [t];
    }

    /** Finds the next unused host and asks it; the host is taken when the answer is a success. */
    method RecruitNext(answer: bool) returns (next: Option<string>)
      requires AtPrefix(cfg.recruitHosts, recruitedHosts, used)
      modifies this`recruitedHosts, this`used
      ensures AtPrefix(cfg.recruitHosts, recruitedHosts, used) && |recruitedHosts| == used
      ensures old(used) <= |Distinct(cfg.recruitHosts)|
      ensures next == if old(used) < |Distinct(cfg.recruitHosts)| then Some(Distinct(cfg.recruitHosts)[old(used)]) else None
      ensures used == old(used) + if next.Some? && answer then 1 else 0
    {
      hide Distinct, FindUnused, AtPrefix;
      PrefixSize(cfg.recruitHosts, recruitedHosts, used);
      PrefixNext(cfg.recruitHosts, recruitedHosts, used);
      next := FindUnused(cfg.recruitHosts, recruitedHosts);
      if next.Some? && answer {
        recruitedHosts := recruitedHosts + {next.value};
        used := used + 1;
        PrefixSize(cfg.recruitHosts, recruitedHosts, used);
      }
    }

    /** The recruit loop, and the reason it stopped. */
    method Recruit(requested: nat, answers: nat -> bool) returns (asked: seq<string>, action: Action)
      requires AtPrefix(cfg.recruitHosts, recruitedHosts, used)
      modifies this`recruitedHosts, this`used
      ensures AtPrefix(cfg.recruitHosts, recruitedHosts, used)
      ensures old(used) <= used <= old(used) + cfg.maxRecruitsPerTick
      ensures used <= |Distinct(cfg.recruitHosts)|
      ensures used > old(used) ==> used <= requested
      ensures forall i :: 0 <= i < used - old(used) ==> answers(i)
      ensures Stopped(cfg, requested, answers, old(used), used, asked, action)
    {
      hide Distinct, FindUnused, AtPrefix, Stopped;
      ghost var d, start := Distinct(cfg.recruitHosts), used;
      asked, action := [], Idle;
      var recruitedThisTick := 0;
      PrefixSize(cfg.recruitHosts, recruitedHosts, used);
      while |recruitedHosts| < requested && recruitedThisTick < cfg.maxRecruitsPerTick
        invariant used == start + recruitedThisTick <= |d| && recruitedThisTick <= cfg.maxRecruitsPerTick
        invariant AtPrefix(cfg.recruitHosts, recruitedHosts, used) && |recruitedHosts| == used
        invariant recruitedThisTick > 0 ==> used <= requested
        invariant forall i :: 0 <= i < recruitedThisTick ==> answers(i)
        invariant Going(d, start, used, asked, action)
        decreases cfg.maxRecruitsPerTick - recruitedThisTick
      {
        var next := RecruitNext(answers(recruitedThisTick));
        if next.None? {
          WhyStopped(cfg, requested, answers, start, used, asked, action);
          return asked, NoUnusedHosts;
        }
        if !answers(recruitedThisTick) {
          WhyStopped(cfg, requested, answers, start, used, asked, action);
          return asked + [next.value], Failed(next.value);
        }
        GoesOn(d, start, used - 1, asked, action);
        asked := asked + [next.value];
        recruitedThisTick := recruitedThisTick + 1;
        action := Recruited(next.value);
      }
      WhyStopped(cfg, requested, answers, start, used, asked, action);
    }
  }

  // ------------------------------------------------------------ whole runs

  /** The hosts recruited over a run, in order. */
  function RecruitLog(cfg: Config, ticks: seq<Tick>): seq<string>
    requires UsedAfter(cfg, ticks) <= |Distinct(cfg.recruitHosts)|
  {
    if ticks == [] then []
    else
      var front := ticks[..|ticks| - 1];
      RecruitLog(cfg, front) + Distinct(cfg.recruitHosts)[UsedAfter(cfg, front)..UsedAfter(cfg, ticks)]
  }

  lemma TakenWithin(cfg: Config, used: nat, t: Tick)
    requires used <= Min(3, |Distinct(cfg.recruitHosts)|)
    ensures used + Taken(cfg, used, t) <= Min(3, |Distinct(cfg.recruitHosts)|)
  {
    assert Requested(cfg, t.reading) <= 3;
    hide Distinct, Successes, IsController, Requested;
  }

  /** A run never takes more than three hosts, nor more than are configured under different names. */
  lemma {:induction false} NeverMoreThanThree(cfg: Config, ticks: seq<Tick>)
    ensures UsedAfter(cfg, ticks) <= Min(3, |Distinct(cfg.recruitHosts)|)
  {
    if ticks != [] {
      hide Distinct, Taken;
      NeverMoreThanThree(cfg, ticks[..|ticks| - 1]);
      TakenWithin(cfg, UsedAfter(cfg, ticks[..|ticks| - 1]), ticks[|ticks| - 1]);
    }
  }

  lemma SliceJoin(d: seq<string>, i: nat, k: nat)
    requires i <= k <= |d|
    ensures d[..i] + d[i..k] == d[..k]
  {
  }

  /** The recruited hosts are a prefix of the distinct list: in configuration order, none of them twice. */
  lemma {:induction false} RecruitedIsPrefix(cfg: Config, ticks: seq<Tick>)
    ensures UsedAfter(cfg, ticks) <= |Distinct(cfg.recruitHosts)|
    ensures RecruitLog(cfg, ticks) == Distinct(cfg.recruitHosts)[..UsedAfter(cfg, ticks)]
    ensures NoRepeats(RecruitLog(cfg, ticks))
  {
    NeverMoreThanThree(cfg, ticks);
    DistinctFacts(cfg.recruitHosts);
    hide Distinct, Taken;
    if ticks == [] {
    } else {
      var front, d := ticks[..|ticks| - 1], Distinct(cfg.recruitHosts);
      RecruitedIsPrefix(cfg, front);
      assert UsedAfter(cfg, front) <= UsedAfter(cfg, ticks);
      hide UsedAfter, NoRepeats;
      SliceJoin(d, UsedAfter(cfg, front), UsedAfter(cfg, ticks));
    }
    PrefixNoRepeats(Distinct(cfg.recruitHosts), UsedAfter(cfg, ticks));
  }

  /** A tick adds at most the configured number of hosts and never gives one up. */
  lemma {:induction false} GrowsByAtMost(cfg: Config, ticks: seq<Tick>, t: Tick)
    ensures UsedAfter(cfg, ticks) <= UsedAfter(cfg, ticks + [t]) <= UsedAfter(cfg, ticks) + cfg.maxRecruitsPerTick
  {
    assert (ticks + [t])[..|ticks|] == ticks;
  }

  /** Standing by, asking for nothing new or failing at once leaves the set alone; only a success adds to it. */
  lemma TakesIff(cfg: Config, used: nat, t: Tick)
    ensures Taken(cfg, used, t) > 0 <==>
              && t.reading.isCoordinator && t.reading.leaderRank == 0
              && cfg.maxRecruitsPerTick > 0 && t.answers(0)
              && used < Requested(cfg, t.reading) && used < |Distinct(cfg.recruitHosts)|
  {
    hide Distinct, Requested;
    var q := Quota(cfg, used, t.reading);
    var j := Successes(t.answers, q);
    assert j < q ==> !t.answers(j);
  }

  /** A fresh controller whose requests all succeed takes as many hosts as it wants, names and room permitting. */
  lemma FreshTickTakes(cfg: Config, t: Tick)
    requires t.reading.isCoordinator && t.reading.leaderRank == 0 && forall i :: t.answers(i)
    ensures var want := Requested(cfg, t.reading);
            Taken(cfg, 0, t) == Min(Min(want, |Distinct(cfg.recruitHosts)|), cfg.maxRecruitsPerTick)
    ensures var k := |Signals(cfg, t.reading)|;
            k > 0 && |Distinct(cfg.recruitHosts)| >= 3 && cfg.maxRecruitsPerTick >= 3 ==>
              2 * Taken(cfg, 0, t) - 1 <= k <= 2 * Taken(cfg, 0, t)
  {
    DistinctFacts(cfg.recruitHosts);
    RequestedByCount(cfg, t.reading);
    RequestedMonotone(cfg, t.reading, t.reading);
    hide Distinct, Requested, Signals;
    var q := Quota(cfg, 0, t.reading);
    SuccessesIs(t.answers, q, q);
  }

  /** A controller under pressure, with a host configured, whose first request succeeds. */
  predicate CouldTake(cfg: Config, t: Tick) {
    && IsController(t.reading) && cfg.recruitHosts != [] && Pressured(cfg, t.reading)
    && cfg.maxRecruitsPerTick > 0 && t.answers(0)
  }

  lemma FirstTakeIff(cfg: Config, t: Tick)
    ensures Taken(cfg, 0, t) > 0 <==> CouldTake(cfg, t)
  {
    TakesIff(cfg, 0, t);
    RequestedIff(cfg, t.reading);
    DistinctFacts(cfg.recruitHosts);
    assert cfg.recruitHosts != [] ==> cfg.recruitHosts[0] in Distinct(cfg.recruitHosts);
    hide Distinct, Requested, Taken, Pressured;
  }

  /** A run recruits a host if and only if some tick of it is able to. */
  lemma {:induction false} RunTakesIff(cfg: Config, ticks: seq<Tick>)
    ensures UsedAfter(cfg, ticks) > 0 <==> exists i :: 0 <= i < |ticks| && CouldTake(cfg, ticks[i])
  {
    if ticks != [] {
      var n := |ticks| - 1;
      var front, t := ticks[..n], ticks[n];
      hide Distinct, Taken, CouldTake;
      RunTakesIff(cfg, front);
      FirstTakeIff(cfg, t);
      assert forall i :: 0 <= i < n ==> ticks[i] == front[i];
      if UsedAfter(cfg, front) > 0 {
        var i :| 0 <= i < |front| && CouldTake(cfg, front[i]);
        assert CouldTake(cfg, ticks[i]);
      } else {
        assert UsedAfter(cfg, ticks) == Taken(cfg, 0, t);
      }
    }
  }

  // ------------------------------------------- running out of unused hosts

  /** A controller under full pressure whose requests all succeed. */
  function Busy(cfg: Config): Tick {
    Tick(Reading(cfg.localCpuPct, cfg.localMemoryPct, true, 0,
                 Some(cfg.coordinationLatencyMs), Some(cfg.prometheusLatencyMs), None,
                 Some(Slurm(cfg.slurmPendingJobs, 0, 0))),
         _ => true)
  }

  lemma AllSucceed(n: nat)
    ensures Successes(_ => true, n) == n
  {
    SuccessesIs(_ => true, n, n);
  }

  lemma BusyTakes(cfg: Config, used: nat)
    requires |Distinct(cfg.recruitHosts)| < Min(3, |cfg.recruitHosts|) && used <= |Distinct(cfg.recruitHosts)|
    ensures Requested(cfg, Busy(cfg).reading) == Min(3, |cfg.recruitHosts|)
    ensures Taken(cfg, used, Busy(cfg)) == Min(|Distinct(cfg.recruitHosts)| - used, cfg.maxRecruitsPerTick)
  {
    hide Distinct;
    AllSucceed(Quota(cfg, used, Busy(cfg).reading));
  }

  lemma {:induction false} BusyRun(cfg: Config, n: nat) returns (ticks: seq<Tick>)
    requires |Distinct(cfg.recruitHosts)| < Min(3, |cfg.recruitHosts|) && cfg.maxRecruitsPerTick > 0
    ensures Min(n, |Distinct(cfg.recruitHosts)|) <= UsedAfter(cfg, ticks) <= |Distinct(cfg.recruitHosts)|
  {
    hide Distinct, Taken;
    ticks := [];
    if n > 0 {
      var front := BusyRun(cfg, n - 1);
      ticks := front + [Busy(cfg)];
      assert ticks[..|front|] == front;
      BusyTakes(cfg, UsedAfter(cfg, front));
    }
  }

  /**
   * With at least one recruit a tick, some run ends a tick with no unused host left exactly when the host list
   * repeats itself down to fewer than min(3, its length) names; with distinct names it cannot happen.
   */
  lemma RanOutReachableIff(cfg: Config)
    requires cfg.maxRecruitsPerTick > 0
    ensures (exists ticks: seq<Tick>, t: Tick :: RanOut(cfg, UsedAfter(cfg, ticks), t)) <==>
              |Distinct(cfg.recruitHosts)| < Min(3, |cfg.recruitHosts|)
    ensures NoRepeats(cfg.recruitHosts) ==> forall ticks: seq<Tick>, t: Tick :: !RanOut(cfg, UsedAfter(cfg, ticks), t)
  {
    DistinctFacts(cfg.recruitHosts);
    hide Distinct, Taken;
    if |Distinct(cfg.recruitHosts)| < Min(3, |cfg.recruitHosts|) {
      var ticks := BusyRun(cfg, |Distinct(cfg.recruitHosts)|);
      BusyTakes(cfg, UsedAfter(cfg, ticks));
      assert RanOut(cfg, UsedAfter(cfg, ticks), Busy(cfg));
    }
  }
}
