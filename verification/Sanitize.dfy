/** The sanitisers that every received ban, probe and fault advertisement passes through. */
module Sanitize {
  import opened Lists
  import opened Machine
  import opened Text
  import Sorted = SortedLists

  const MAX_AGENT_ID_LEN: nat := 128
  const MAX_TAG_LEN: nat := 64
  const MAX_FAULT_KEY_LEN: nat := 256
  const MAX_PROBE_PORTS: nat := 16

  datatype BanEntry = BanEntry(ip: string, jail: string, expiresMs: Option<U64>, banCount: U32, lastBanMs: U64)
  datatype ProbeEntry = ProbeEntry(ip: string, sampledAtMs: U64, mode: string, openPorts: seq<nat>)

  datatype FaultEntry = FaultEntry(
    key: string, gpuId: string, probeType: string, state: string, severity: string,
    risk: real, confidence: real, count: U64, firstSeenMs: U64, lastSeenMs: U64)

  /** Parses an address and prints it again; `None` for anything that is not an address. */
  type CanonicalIp = string -> Option<string>

  /** Printed addresses parse back to themselves. */
  ghost predicate Stable(ip: CanonicalIp) {
    forall s: string :: ip(s).Some? ==> ip(ip(s).value) == ip(s)
  }

  // ------------------------------------------------------------ byte lengths

  function CharLen(c: char): nat {
    if c < '\U{80}' then 1 else if c < '\U{800}' then 2 else if c < '\U{10000}' then 3 else 4
  }

  /** The length in bytes of the UTF-8 form. */
  function ByteLen(s: string): nat {
    if s == [] then 0 else ByteLen(s[..|s| - 1]) + CharLen(s[|s| - 1])
  }

  lemma {:induction false} ByteLenHead(s: string)
    requires s != []
    ensures ByteLen(s) == CharLen(s[0]) + ByteLen(s[1..])
  {
    if |s| > 1 {
      ByteLenHead(s[..|s| - 1]);
      assert s[1..][..|s| - 2] == s[..|s| - 1][1..];
    }
  }

  lemma {:induction false} TrimStartShortens(s: string)
    ensures ByteLen(TrimStart(s)) <= ByteLen(s)
  {
    if s != [] && IsWhitespace(s[0]) {
      TrimStartShortens(s[1..]);
      ByteLenHead(s);
    }
  }

  lemma {:induction false} TrimEndShortens(s: string)
    ensures ByteLen(TrimEnd(s)) <= ByteLen(s)
  {
    if s != [] && IsWhitespace(s[|s| - 1]) {
      TrimEndShortens(s[..|s| - 1]);
    }
  }

  lemma TrimShortens(s: string)
    ensures ByteLen(Trim(s)) <= ByteLen(s)
  {
    TrimStartShortens(s);
    TrimEndShortens(TrimStart(s));
  }

  // --------------------------------------------------------------- lower case

  function LowerChar(c: char): char {
    if 'A' <= c <= 'Z' then c - 'A' + 'a' else c
  }

  function LowerAscii(s: string): (r: string)
    ensures |r| == |s|
    ensures forall i :: 0 <= i < |s| ==> r[i] == LowerChar(s[i])
  {
    seq(|s|, i requires 0 <= i < |s| => LowerChar(s[i]))
  }

  lemma {:induction false} LowerKeepsLength(s: string)
    ensures ByteLen(LowerAscii(s)) == ByteLen(s)
  {
    if s != [] {
      LowerKeepsLength(s[..|s| - 1]);
      assert LowerAscii(s)[..|s| - 1] == LowerAscii(s[..|s| - 1]);
    }
  }

  /** Normalised labels, trimmed and in lower case, are left alone by a second normalisation. */
  lemma NormalIsStable(s: string)
    ensures LowerAscii(Trim(LowerAscii(Trim(s)))) == LowerAscii(Trim(s))
    ensures LowerAscii(Trim(s)) == [] <==> Trim(s) == []
    ensures Trim(LowerAscii(Trim(s))) == LowerAscii(Trim(s))
  {
    TrimIdempotent(s);
    var t := Trim(s);
    var low := LowerAscii(t);
    if t != [] {
      assert !IsWhitespace(low[0]) && !IsWhitespace(low[|low| - 1]);
      assert TrimStart(low) == low && TrimEnd(low) == low;
    }
    assert LowerAscii(low) == low;
  }

  // ----------------------------------------------------------- the three filters

  /** A ban entry survives with its address in canonical form. */
  function CleanBan(ip: CanonicalIp, now: U64, e: BanEntry): Option<BanEntry> {
    if Trim(e.jail) == [] || ByteLen(e.jail) > MAX_AGENT_ID_LEN then None
    else if ip(e.ip).None? then None
    else if e.expiresMs.Some? && e.expiresMs.value <= now then None
    else Some(e.(ip := ip(e.ip).value))
  }

  function Positive(ports: seq<nat>): seq<nat> {
    if ports == [] then []
    else (if ports[0] > 0 then [ports[0]] else []) + Positive(ports[1..])
  }

  function First<T>(s: seq<T>, n: nat): (r: seq<T>)
    ensures |r| == Min(|s|, n)
    ensures r <= s
  {
    if |s| <= n then s else s[..n]
  }

  /** At most sixteen of the positive ports, sorted, each once. */
  function CleanPorts(ports: seq<nat>): seq<nat> {
    Sorted.SortDedup(First(Positive(ports), MAX_PROBE_PORTS))
  }

  function CleanProbe(ip: CanonicalIp, now: U64, e: ProbeEntry): Option<ProbeEntry> {
    if ip(e.ip).None? then None
    else if e.sampledAtMs == 0 || e.sampledAtMs > SatAdd(now, 60_000) then None
    else Some(e.(ip := ip(e.ip).value, mode := Trim(e.mode), openPorts := CleanPorts(e.openPorts)))
  }

  function Clamp01(x: real): real {
    if x < 0.0 then 0.0 else if x > 1.0 then 1.0 else x
  }

  function CleanFault(e: FaultEntry): Option<FaultEntry> {
    if Trim(e.key) == [] || ByteLen(e.key) > MAX_FAULT_KEY_LEN then None
    else if Trim(e.gpuId) == [] || ByteLen(e.gpuId) > MAX_AGENT_ID_LEN then None
    else if Trim(e.probeType) == [] || ByteLen(e.probeType) > MAX_TAG_LEN then None
    else Some(e.(key := Trim(e.key), gpuId := Trim(e.gpuId), probeType := LowerAscii(Trim(e.probeType)),
                 state := LowerAscii(Trim(e.state)), severity := LowerAscii(Trim(e.severity)),
                 risk := Clamp01(e.risk), confidence := Clamp01(e.confidence)))
  }

  lemma {:induction false} PositivePorts(ports: seq<nat>)
    ensures forall p :: p in Positive(ports) <==> p > 0 && p in ports
    ensures (forall i :: 0 <= i < |ports| ==> ports[i] > 0) ==> Positive(ports) == ports
  {
    if ports != [] {
      PositivePorts(ports[1..]);
      assert ports == [ports[0]] + ports[1..];
      assert forall p :: p in ports <==> p == ports[0] || p in ports[1..];
      assert (forall i :: 0 <= i < |ports| ==> ports[i] > 0) ==> ports[0] > 0;
    }
  }

  /** Cleaned ports are strictly increasing, positive, at most sixteen, and cleaning them again changes nothing. */
  lemma PortsAreClean(ports: seq<nat>)
    ensures forall p :: p in CleanPorts(ports) ==> 0 < p && p in ports
    ensures Sorted.Increasing(CleanPorts(ports)) && |CleanPorts(ports)| <= MAX_PROBE_PORTS
    ensures |Positive(ports)| <= MAX_PROBE_PORTS ==> forall p :: p in ports && p > 0 ==> p in CleanPorts(ports)
  {
    var kept := First(Positive(ports), MAX_PROBE_PORTS);
    PositivePorts(ports);
    Sorted.SortDedupIsIncreasing(kept);
    forall p | p in kept
      ensures p in CleanPorts(ports)
    {
      assert p in Members(kept);
    }
    forall p | p in CleanPorts(ports)
      ensures p in kept && p in Positive(ports)
    {
      assert p in Members(CleanPorts(ports));
    }
  }

  lemma CleanPortsIdempotent(ports: seq<nat>)
    ensures CleanPorts(CleanPorts(ports)) == CleanPorts(ports)
  {
    PortsAreClean(ports);
    var once := CleanPorts(ports);
    assert forall i :: 0 <= i < |once| ==> once[i] in once;
    PositivePorts(once);
    assert First(once, MAX_PROBE_PORTS) == once;
    Sorted.SortDedupIsIncreasing(once);
    Sorted.IncreasingIsUnique(Sorted.SortDedup(once), once);
  }

  // ------------------------------------------------------------- the loop

  /** The survivors of a list, in arrival order. */
  function Survivors<T>(clean: T -> Option<T>, entries: seq<T>): seq<T> {
    if entries == [] then []
    else
      var front := Survivors(clean, entries[..|entries| - 1]);
      var last := clean(entries[|entries| - 1]);
      if last.Some? then front + [last.value] else front
  }

  /** Cleaning twice is cleaning once. */
  ghost predicate Idempotent<T(!new)>(clean: T -> Option<T>) {
    forall e: T :: clean(e).Some? ==> clean(clean(e).value) == clean(e)
  }

  lemma {:induction false} SurvivorsPrefix<T>(clean: T -> Option<T>, entries: seq<T>, n: nat)
    requires n <= |entries|
    ensures Survivors(clean, entries[..n]) <= Survivors(clean, entries)
    decreases |entries|
  {
    if n == |entries| {
      assert entries[..n] == entries;
    } else {
      SurvivorsPrefix(clean, entries[..|entries| - 1], n);
      assert entries[..|entries| - 1][..n] == entries[..n];
    }
  }

  /** The shared loop: clean, push, stop once the limit is reached. The test comes after the push. */
  method KeepFirst<T>(clean: T -> Option<T>, entries: seq<T>, limit: nat) returns (cleaned: seq<T>)
    ensures cleaned == First(Survivors(clean, entries), Max(limit, 1))
  {
    cleaned := [];
    for i := 0 to |entries|
      invariant cleaned == Survivors(clean, entries[..i])
      invariant |cleaned| < Max(limit, 1)
    {
      assert entries[..i + 1][..i] == entries[..i];
      SurvivorsPrefix(clean, entries, i + 1);
      var entry := clean(entries[i]);
      if entry.Some? {
        cleaned := cleaned + [entry.value];
        if |cleaned| >= limit {
          return;
        }
      }
    }
    assert entries[..|entries|] == entries;
  }

  lemma {:induction false} SurvivorsAreFixed<T(!new)>(clean: T -> Option<T>, entries: seq<T>)
    requires Idempotent(clean)
    ensures forall i :: 0 <= i < |Survivors(clean, entries)| ==>
              clean(Survivors(clean, entries)[i]) == Some(Survivors(clean, entries)[i])
  {
    if entries != [] {
      SurvivorsAreFixed(clean, entries[..|entries| - 1]);
    }
  }

  lemma {:induction false} FixedSurvive<T(!new)>(clean: T -> Option<T>, entries: seq<T>)
    requires forall i :: 0 <= i < |entries| ==> clean(entries[i]) == Some(entries[i])
    ensures Survivors(clean, entries) == entries
  {
    if entries != [] {
      FixedSurvive(clean, entries[..|entries| - 1]);
      assert entries == entries[..|entries| - 1] + [entries[|entries| - 1]];
    }
  }

  /** Sanitising what has been sanitised changes nothing. */
  lemma KeepFirstIdempotent<T(!new)>(clean: T -> Option<T>, entries: seq<T>, limit: nat)
    requires Idempotent(clean)
    ensures var once := First(Survivors(clean, entries), Max(limit, 1));
            First(Survivors(clean, once), Max(limit, 1)) == once
  {
    var once := First(Survivors(clean, entries), Max(limit, 1));
    SurvivorsAreFixed(clean, entries);
    FixedSurvive(clean, once);
  }

  /** The limit is kept exactly when it is positive or nothing survives: a limit of zero lets one entry through. */
  lemma LimitKeptIff<T>(clean: T -> Option<T>, entries: seq<T>, limit: nat)
    ensures |First(Survivors(clean, entries), Max(limit, 1))| <= limit <==>
              limit > 0 || Survivors(clean, entries) == []
  {
  }

  // --------------------------------------------------------- the advertisements

  function BanFilter(ip: CanonicalIp, now: U64): BanEntry -> Option<BanEntry> {
    e => CleanBan(ip, now, e)
  }

  function ProbeFilter(ip: CanonicalIp, now: U64): ProbeEntry -> Option<ProbeEntry> {
    e => CleanProbe(ip, now, e)
  }

  function FaultFilter(): FaultEntry -> Option<FaultEntry> {
    e => CleanFault(e)
  }

  class BanAdvertisement {
    var entries: seq<BanEntry>
    var probeEntries: seq<ProbeEntry>

    method SanitizeAnnouncement(ip: CanonicalIp, maxAdvertisedIps: nat, now: U64)
      modifies this
      ensures entries == First(Survivors(BanFilter(ip, now), old(entries)), Max(maxAdvertisedIps, 1))
      ensures probeEntries == First(Survivors(ProbeFilter(ip, now), old(probeEntries)), Max(maxAdvertisedIps, 1))
    {
      entries := KeepFirst(BanFilter(ip, now), entries, maxAdvertisedIps);
      probeEntries := KeepFirst(ProbeFilter(ip, now), probeEntries, maxAdvertisedIps);
    }
  }

  class FaultAdvertisement {
    var entries: seq<FaultEntry>

    method SanitizeFaultAnnouncement(maxAdvertisedFaults: nat)
      modifies this
      ensures entries == First(Survivors(FaultFilter(), old(entries)), Max(maxAdvertisedFaults, 1))
    {
      entries := KeepFirst(FaultFilter(), entries, maxAdvertisedFaults);
    }
  }

  /** A named jail, a real address, still in force. */
  predicate LiveBan(ip: CanonicalIp, now: U64, e: BanEntry) {
    && Trim(e.jail) != [] && ByteLen(e.jail) <= MAX_AGENT_ID_LEN
    && ip(e.ip).Some? && (e.expiresMs.Some? ==> now < e.expiresMs.value)
  }

  /** The bans kept are live and in canonical form, and a list of live bans loses none. */
  lemma {:induction false} KeptBansAreLive(ip: CanonicalIp, now: U64, entries: seq<BanEntry>)
    requires Stable(ip)
    ensures forall e :: e in Survivors(BanFilter(ip, now), entries) ==> LiveBan(ip, now, e) && ip(e.ip) == Some(e.ip)
    ensures (forall e :: e in entries ==> LiveBan(ip, now, e)) ==>
              |Survivors(BanFilter(ip, now), entries)| == |entries|
  {
    if entries != [] {
      hide Trim, ByteLen;
      var front, last := entries[..|entries| - 1], entries[|entries| - 1];
      KeptBansAreLive(ip, now, front);
      assert CleanBan(ip, now, last).Some? <==> LiveBan(ip, now, last);
      assert entries == front + [last];
      hide LiveBan;
    }
  }

  predicate IsLabel(s: string) {
    LowerAscii(Trim(s)) == s
  }

  /** Trimmed identifiers within their limits, lower-case labels, risks between 0 and 1. */
  predicate NormalFault(e: FaultEntry) {
    && e.key != [] && Trim(e.key) == e.key && ByteLen(e.key) <= MAX_FAULT_KEY_LEN
    && e.gpuId != [] && Trim(e.gpuId) == e.gpuId && ByteLen(e.gpuId) <= MAX_AGENT_ID_LEN
    && e.probeType != [] && Trim(e.probeType) == e.probeType && ByteLen(e.probeType) <= MAX_TAG_LEN
    && IsLabel(e.probeType) && IsLabel(e.state) && IsLabel(e.severity)
    && 0.0 <= e.risk <= 1.0 && 0.0 <= e.confidence <= 1.0
  }

  lemma LabelFacts(s: string)
    ensures IsLabel(LowerAscii(Trim(s))) && Trim(LowerAscii(Trim(s))) == LowerAscii(Trim(s))
    ensures ByteLen(LowerAscii(Trim(s))) <= ByteLen(s)
    ensures LowerAscii(Trim(s)) == [] <==> Trim(s) == []
  {
    NormalIsStable(s);
    TrimShortens(s);
    LowerKeepsLength(Trim(s));
  }

  lemma CleanedFaultIsNormal(f: FaultEntry)
    requires CleanFault(f).Some?
    ensures NormalFault(CleanFault(f).value)
  {
    hide Trim, LowerAscii, ByteLen, IsLabel;
    TrimIdempotent(f.key);
    TrimShortens(f.key);
    TrimIdempotent(f.gpuId);
    TrimShortens(f.gpuId);
    LabelFacts(f.probeType);
    LabelFacts(f.state);
    LabelFacts(f.severity);
  }

  lemma NormalFaultIsKept(f: FaultEntry)
    requires NormalFault(f)
    ensures CleanFault(f) == Some(f)
  {
    hide Trim, LowerAscii, ByteLen;
  }

  /** Kept faults are normal. */
  lemma {:induction false} KeptFaultsAreNormal(entries: seq<FaultEntry>)
    ensures forall i :: 0 <= i < |Survivors(FaultFilter(), entries)| ==>
              NormalFault(Survivors(FaultFilter(), entries)[i])
  {
    if entries != [] {
      KeptFaultsAreNormal(entries[..|entries| - 1]);
      var last := entries[|entries| - 1];
      if CleanFault(last).Some? {
        CleanedFaultIsNormal(last);
      }
      hide NormalFault;
    }
  }

  /** Bans: what is kept would be kept again unchanged at the same time. */
  lemma BanFilterIdempotent(ip: CanonicalIp, now: U64)
    requires Stable(ip)
    ensures Idempotent(BanFilter(ip, now))
  {
  }

  lemma ProbeFilterIdempotent(ip: CanonicalIp, now: U64)
    requires Stable(ip)
    ensures Idempotent(ProbeFilter(ip, now))
  {
    forall e: ProbeEntry | CleanProbe(ip, now, e).Some?
      ensures CleanProbe(ip, now, CleanProbe(ip, now, e).value) == CleanProbe(ip, now, e)
    {
      TrimIdempotent(e.mode);
      PortsAreClean(e.openPorts);
      CleanPortsIdempotent(e.openPorts);
    }
  }

  lemma FaultFilterIdempotent()
    ensures Idempotent(FaultFilter())
  {
    forall e: FaultEntry | CleanFault(e).Some?
      ensures CleanFault(CleanFault(e).value) == CleanFault(e)
    {
      hide CleanFault, NormalFault;
      CleanedFaultIsNormal(e);
      NormalFaultIsKept(CleanFault(e).value);
    }
  }

  /** A real address, sampled at a known time no more than a minute ahead. */
  predicate LiveProbe(ip: CanonicalIp, now: U64, e: ProbeEntry) {
    ip(e.ip).Some? && 0 < e.sampledAtMs <= SatAdd(now, 60_000)
  }

  predicate NormalProbe(ip: CanonicalIp, e: ProbeEntry) {
    && ip(e.ip) == Some(e.ip) && Trim(e.mode) == e.mode
    && Sorted.Increasing(e.openPorts) && |e.openPorts| <= MAX_PROBE_PORTS && 0 !in e.openPorts
  }

  /** Kept probes are live, with strictly increasing positive ports, and a list of live probes loses none. */
  lemma {:induction false} KeptProbesAreNormal(ip: CanonicalIp, now: U64, entries: seq<ProbeEntry>)
    requires Stable(ip)
    ensures forall e :: e in Survivors(ProbeFilter(ip, now), entries) ==> LiveProbe(ip, now, e) && NormalProbe(ip, e)
    ensures (forall e :: e in entries ==> LiveProbe(ip, now, e)) ==>
              |Survivors(ProbeFilter(ip, now), entries)| == |entries|
  {
    if entries != [] {
      var front, last := entries[..|entries| - 1], entries[|entries| - 1];
      KeptProbesAreNormal(ip, now, front);
      PortsAreClean(last.openPorts);
      TrimIdempotent(last.mode);
      hide Trim, CleanPorts;
      assert CleanProbe(ip, now, last).Some? <==> LiveProbe(ip, now, last);
      assert CleanProbe(ip, now, last).Some? ==> NormalProbe(ip, CleanProbe(ip, now, last).value);
      assert entries == front + [last];
      hide LiveProbe, NormalProbe;
    }
  }

  // ------------------------------------------------- who survives, and as what

  lemma {:induction false} ByteLenAdds(a: string, b: string)
    ensures ByteLen(a + b) == ByteLen(a) + ByteLen(b)
  {
    if b == [] {
      assert a + b == a;
    } else {
      ByteLenAdds(a, b[..|b| - 1]);
      assert (a + b)[..|a + b| - 1] == a + b[..|b| - 1];
    }
  }

  /** UTF-8: one byte below 128, two below 2048, three below 65536, else four; lengths add up. */
  lemma ByteLenOfOne(c: char)
    ensures ByteLen([c]) ==
            if c as int < 128 then 1 else if c as int < 2048 then 2 else if c as int < 65536 then 3 else 4
  {
    assert [c][..0] == [];
  }

  /** A fault survives exactly when its three identifiers hold text and fit their limits, whatever else it carries. */
  lemma FaultSurvivesIff(e: FaultEntry)
    ensures FaultFilter()(e).Some? <==>
              && !AllWhitespace(e.key) && ByteLen(e.key) <= 256
              && !AllWhitespace(e.gpuId) && ByteLen(e.gpuId) <= 128
              && !AllWhitespace(e.probeType) && ByteLen(e.probeType) <= 64
  {
    BlankIff(e.key);
    BlankIff(e.gpuId);
    BlankIff(e.probeType);
    hide Trim, ByteLen, LowerAscii, AllWhitespace;
  }

  /** A list of surviving entries loses none. */
  lemma {:induction false} SurvivorsLoseNone<T>(clean: T -> Option<T>, entries: seq<T>)
    requires forall i :: 0 <= i < |entries| ==> clean(entries[i]).Some?
    ensures |Survivors(clean, entries)| == |entries|
    ensures forall i :: 0 <= i < |entries| ==> Survivors(clean, entries)[i] == clean(entries[i]).value
  {
    if entries != [] {
      SurvivorsLoseNone(clean, entries[..|entries| - 1]);
    }
  }

  /** `kept` are the survivors, at the increasing positions `at`, and no other entry survives. */
  predicate SurviveAt<T(==)>(clean: T -> Option<T>, entries: seq<T>, at: seq<nat>, kept: seq<T>) {
    && |at| == |kept|
    && (forall i, j :: 0 <= i < j < |at| ==> at[i] < at[j])
    && (forall i :: 0 <= i < |at| ==> at[i] < |entries| && clean(entries[at[i]]) == Some(kept[i]))
    && (forall k: nat :: k < |entries| && clean(entries[k]).Some? ==> k in at)
  }

  lemma SurviveSnoc<T>(clean: T -> Option<T>, entries: seq<T>, e: T, at: seq<nat>, kept: seq<T>)
    requires SurviveAt(clean, entries, at, kept)
    ensures clean(e).Some? ==> SurviveAt(clean, entries + [e], at + [|entries|], kept + [clean(e).value])
    ensures clean(e).None? ==> SurviveAt(clean, entries + [e], at, kept)
  {
    var longer := at + [|entries|];
    assert forall k :: k in at ==> k in longer;
    assert longer[|at|] == |entries|;
  }

  /** The survivors stand in arrival order, and every entry that survives is among them. */
  lemma {:induction false} SurvivorPositions<T>(clean: T -> Option<T>, entries: seq<T>) returns (at: seq<nat>)
    ensures SurviveAt(clean, entries, at, Survivors(clean, entries))
  {
    at := [];
    if entries != [] {
      var front, e := entries[..|entries| - 1], entries[|entries| - 1];
      at := SurvivorPositions(clean, front);
      hide SurviveAt;
      SurviveSnoc(clean, front, e, at, Survivors(clean, front));
      assert front + [e] == entries;
      at := if clean(e).Some? then at + [|front|] else at;
    }
  }

  /** `t` is what stands at `i` in `s` between outer whitespace, with 'A' to 'Z' moved by 32. */
  predicate LoweredAt(s: string, t: string, i: nat) {
    && i + |t| <= |s| && TrimmedAt(s, s[i..i + |t|], i)
    && forall k :: 0 <= k < |t| ==>
         t[k] as int == if 65 <= s[i + k] as int <= 90 then s[i + k] as int + 32 else s[i + k] as int
  }

  lemma LabelIsLowered(s: string) returns (i: nat)
    ensures LoweredAt(s, LowerAscii(Trim(s)), i)
  {
    i := TrimIsTrimmed(s);
    var t := Trim(s);
    hide Trim, AllWhitespace, IsWhitespace;
    assert forall k :: 0 <= k < |t| ==> s[i + k] == t[k];
  }

  /** What a surviving fault keeps, and how the rest is normalised. */
  lemma FaultIsNormalised(e: FaultEntry)
    requires FaultFilter()(e).Some?
    ensures var f := FaultFilter()(e).value;
            && f.count == e.count && f.firstSeenMs == e.firstSeenMs && f.lastSeenMs == e.lastSeenMs
            && (exists i :: TrimmedAt(e.key, f.key, i)) && (exists i :: TrimmedAt(e.gpuId, f.gpuId, i))
            && (exists i :: LoweredAt(e.probeType, f.probeType, i))
            && (exists i :: LoweredAt(e.state, f.state, i)) && (exists i :: LoweredAt(e.severity, f.severity, i))
            && f.risk == (if e.risk <= 0.0 then 0.0 else if e.risk >= 1.0 then 1.0 else e.risk)
            && f.confidence == (if e.confidence <= 0.0 then 0.0 else if e.confidence >= 1.0 then 1.0 else e.confidence)
  {
    var i := TrimIsTrimmed(e.key);
    var j := TrimIsTrimmed(e.gpuId);
    var k := LabelIsLowered(e.probeType);
    var l := LabelIsLowered(e.state);
    var n := LabelIsLowered(e.severity);
    hide Trim, LowerAscii, ByteLen, TrimmedAt, LoweredAt;
  }

  /** A ban survives exactly when it names a jail, an address, and is still in force; only its address is rewritten. */
  lemma BanSurvivesIff(ip: CanonicalIp, now: U64, e: BanEntry)
    ensures BanFilter(ip, now)(e).Some? <==>
              && !AllWhitespace(e.jail) && ByteLen(e.jail) <= 128
              && ip(e.ip).Some? && (e.expiresMs.Some? ==> now < e.expiresMs.value)
    ensures BanFilter(ip, now)(e).Some? ==>
              var f := BanFilter(ip, now)(e).value;
              && Some(f.ip) == ip(e.ip) && f.jail == e.jail && f.expiresMs == e.expiresMs
              && f.banCount == e.banCount && f.lastBanMs == e.lastBanMs
  {
    BlankIff(e.jail);
    hide Trim, ByteLen, AllWhitespace;
  }

  /** A probe survives exactly when its address parses and its time is known and at most a minute ahead. */
  lemma ProbeSurvivesIff(ip: CanonicalIp, now: U64, e: ProbeEntry)
    ensures ProbeFilter(ip, now)(e).Some? <==>
              ip(e.ip).Some? && 0 < e.sampledAtMs && e.sampledAtMs <= now + 60_000
    ensures ProbeFilter(ip, now)(e).Some? ==>
              var f := ProbeFilter(ip, now)(e).value;
              && Some(f.ip) == ip(e.ip) && f.sampledAtMs == e.sampledAtMs && f.openPorts == CleanPorts(e.openPorts)
              && exists i :: TrimmedAt(e.mode, f.mode, i)
  {
    var i := TrimIsTrimmed(e.mode);
    hide Trim, CleanPorts, TrimmedAt;
  }

  lemma ConcatAssoc(a: seq<nat>, b: seq<nat>, c: seq<nat>)
    ensures (a + b) + c == a + (b + c)
  {
  }

  lemma PositiveCons(port: nat, ports: seq<nat>)
    ensures Positive([port] + ports) == (if port > 0 then [port] else []) + Positive(ports)
  {
    assert ([port] + ports)[1..] == ports;
  }

  lemma {:induction false} PositiveConcat(a: seq<nat>, b: seq<nat>)
    ensures Positive(a + b) == Positive(a) + Positive(b)
  {
    if a == [] {
      assert a + b == b && Positive(a) == [];
    } else {
      var tail := a[1..];
      assert a == [a[0]] + tail && a + b == [a[0]] + (tail + b);
      hide Positive;
      PositiveConcat(tail, b);
      PositiveCons(a[0], tail);
      PositiveCons(a[0], tail + b);
      ConcatAssoc(if a[0] > 0 then [a[0]] else [], Positive(tail), Positive(b));
    }
  }

  /** The ports kept are the positive ones among the first that bring their number, repeats included, to sixteen. */
  lemma FirstSixteenPorts(ports: seq<nat>) returns (n: nat)
    ensures n <= |ports| && |Positive(ports[..n])| <= 16 && (n < |ports| ==> |Positive(ports[..n])| == 16)
    ensures forall p :: p in CleanPorts(ports) <==> p > 0 && p in ports[..n]
  {
    n := 0;
    while n < |ports| && |Positive(ports[..n])| < 16
      invariant n <= |ports| && |Positive(ports[..n])| <= 16
    {
      assert ports[..n + 1] == ports[..n] + [ports[n]];
      PositiveConcat(ports[..n], [ports[n]]);
      assert [ports[n]][1..] == [];
      n := n + 1;
    }
    assert ports == ports[..n] + ports[n..];
    PositiveConcat(ports[..n], ports[n..]);
    var kept := First(Positive(ports), 16);
    assert n == |ports| ==> ports[n..] == [];
    assert kept == Positive(ports[..n]);
    PositivePorts(ports[..n]);
    Sorted.SortDedupIsIncreasing(kept);
    assert forall p :: p in CleanPorts(ports) <==> p in Members(CleanPorts(ports));
    assert forall p :: p in kept <==> p in Members(kept);
  }
}
