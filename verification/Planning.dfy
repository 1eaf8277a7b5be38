/** The assessment plan: what validation accepts, and how its slices divide the inventory. */
module Planning {
  import opened Lists
  import opened Machine
  import Text

  const ASSESSMENT_PROTOCOL_VERSION: nat := 2

  datatype Slice = Slice(sliceIndex: nat, startMs: U64, endMs: U64, completed: bool)

  datatype Plan = Plan(
    protocolVersion: U64, generatedEpochMs: U64, agentId: string, planToken: string,
    cycleStartMs: U64, cycleDeadlineMs: U64, slotIndex: nat, slotCount: nat, slotStartMs: U64, slotEndMs: U64,
    sliceCount: nat, completedSliceCount: nat, slices: seq<Slice>)

  datatype PlanError =
    | UnexpectedAgent | InvalidSlot | InvalidManifest | InconsistentCount | InvalidWindow | MissingToken
    | IndexOutside | DuplicateIndex | NonPositiveDuration | OutsideSlot | Overlap

  // ------------------------------------------------------------- validation

  predicate HeaderOk(agentId: string, p: Plan) {
    && (Text.Blank(p.agentId) || p.agentId == agentId)
    && p.slotIndex < p.slotCount
    && 0 < p.sliceCount == |p.slices|
    && p.completedSliceCount <= p.sliceCount
    && p.slotStartMs < p.slotEndMs && p.cycleStartMs < p.cycleDeadlineMs
    && (p.protocolVersion >= ASSESSMENT_PROTOCOL_VERSION ==> !Text.Blank(p.planToken))
  }

  predicate IndexesDistinct(s: seq<Slice>) {
    forall i, j :: 0 <= i < j < |s| ==> s[i].sliceIndex != s[j].sliceIndex
  }

  predicate IndexesBelow(s: seq<Slice>, n: nat) {
    forall i :: 0 <= i < |s| ==> s[i].sliceIndex < n
  }

  /** Every window is non-empty and inside the slot, and each ends before any later one starts. */
  predicate WindowsOrdered(s: seq<Slice>, slotStart: U64, slotEnd: U64) {
    && (forall i :: 0 <= i < |s| ==> slotStart <= s[i].startMs < s[i].endMs <= slotEnd)
    && (forall i, j :: 0 <= i < j < |s| ==> s[i].endMs <= s[j].startMs)
  }

  predicate SlicesOk(p: Plan, n: nat)
    requires n <= |p.slices|
  {
    && IndexesBelow(p.slices[..n], p.sliceCount)
    && IndexesDistinct(p.slices[..n])
    && WindowsOrdered(p.slices[..n], p.slotStartMs, p.slotEndMs)
  }

  predicate ValidPlan(agentId: string, p: Plan) {
    HeaderOk(agentId, p) && SlicesOk(p, |p.slices|)
  }

  /** The first header rule that a plan breaks. */
  function HeaderError(agentId: string, p: Plan): (r: Option<PlanError>)
    ensures r.None? <==> HeaderOk(agentId, p)
  {
    if !Text.Blank(p.agentId) && p.agentId != agentId then Some(UnexpectedAgent)
    else if p.slotCount == 0 || p.slotIndex >= p.slotCount then Some(InvalidSlot)
    else if p.sliceCount == 0 || |p.slices| != p.sliceCount then Some(InvalidManifest)
    else if p.completedSliceCount > p.sliceCount then Some(InconsistentCount)
    else if p.slotEndMs <= p.slotStartMs || p.cycleDeadlineMs <= p.cycleStartMs then Some(InvalidWindow)
    else if p.protocolVersion >= ASSESSMENT_PROTOCOL_VERSION && Text.Blank(p.planToken) then Some(MissingToken)
    else None
  }

  /** What is wrong with slice `n`, given the slices before it. */
  function SliceError(p: Plan, n: nat): Option<PlanError>
    requires n < |p.slices|
  {
    var slice := p.slices[n];
    if slice.sliceIndex >= p.sliceCount then Some(IndexOutside)
    else if exists j :: 0 <= j < n && p.slices[j].sliceIndex == slice.sliceIndex then Some(DuplicateIndex)
    else if slice.endMs <= slice.startMs then Some(NonPositiveDuration)
    else if slice.startMs < p.slotStartMs || slice.endMs > p.slotEndMs then Some(OutsideSlot)
    else if slice.startMs < (if n == 0 then p.slotStartMs else p.slices[n - 1].endMs) then Some(Overlap)
    else None
  }

  lemma SlicesOkStep(p: Plan, n: nat)
    requires n < |p.slices| && SlicesOk(p, n)
    ensures SlicesOk(p, n + 1) <==> SliceError(p, n) == None
  {
    var s, t := p.slices[..n], p.slices[..n + 1];
    assert t == s + [p.slices[n]];
    if SlicesOk(p, n + 1) {
      assert t[n] == p.slices[n];
      assert n > 0 ==> t[n - 1] == p.slices[n - 1];
      assert forall j :: 0 <= j < n ==> t[j] == p.slices[j];
    }
    if SliceError(p, n) == None {
      assert forall j :: 0 <= j < n ==> t[j] == p.slices[j] && t[j].endMs <= p.slices[n].startMs by {
        forall j | 0 <= j < n
          ensures t[j] == p.slices[j] && t[j].endMs <= p.slices[n].startMs
        {
          assert s[j].endMs <= s[n - 1].endMs;
        }
      }
    }
  }

  lemma SlicesOkMonotone(p: Plan, n: nat, m: nat)
    requires n <= m <= |p.slices| && SlicesOk(p, m)
    ensures SlicesOk(p, n)
  {
    assert p.slices[..m][..n] == p.slices[..n];
  }

  ghost predicate FirstBadSlice(p: Plan, n: nat, e: PlanError) {
    n < |p.slices| && SlicesOk(p, n) && SliceError(p, n) == Some(e)
  }

  /** Validation accepts exactly the valid plans, and otherwise names the first rule broken. */
  method ValidatePlan(agentId: string, p: Plan) returns (r: Option<PlanError>)
    ensures r.None? <==> ValidPlan(agentId, p)
    ensures r.Some? ==> HeaderError(agentId, p) == r ||
                        (HeaderOk(agentId, p) && exists n :: FirstBadSlice(p, n, r.value))
  {
    r := HeaderError(agentId, p);
    if r.Some? {
      return;
    }
    assert SlicesOk(p, 0);
    hide SlicesOk, HeaderOk, HeaderError;
    var previousEndMs := p.slotStartMs;
    var seen: set<nat> := {};
    for n := 0 to |p.slices|
      invariant SlicesOk(p, n)
      invariant seen == set j | 0 <= j < n :: p.slices[j].sliceIndex
      invariant previousEndMs == if n == 0 then p.slotStartMs else p.slices[n - 1].endMs
    {
      var slice := p.slices[n];
      var e := None;
      if slice.sliceIndex >= p.sliceCount {
        e := Some(IndexOutside);
      } else if slice.sliceIndex in seen {
        e := Some(DuplicateIndex);
      } else if slice.endMs <= slice.startMs {
        e := Some(NonPositiveDuration);
      } else if slice.startMs < p.slotStartMs || slice.endMs > p.slotEndMs {
        e := Some(OutsideSlot);
      } else if slice.startMs < previousEndMs {
        e := Some(Overlap);
      }
      assert e == SliceError(p, n);
      SlicesOkStep(p, n);
      if e.Some? {
        assert FirstBadSlice(p, n, e.value);
        if SlicesOk(p, |p.slices|) {
          SlicesOkMonotone(p, n + 1, |p.slices|);
        }
        return e;
      }
      seen := seen + {slice.sliceIndex};
      previousEndMs := slice.endMs;
    }
  }

  // ------------------------------------------------------ the slice indexes

  function IndexSet(s: seq<Slice>): set<nat> {
    set i | 0 <= i < |s| :: s[i].sliceIndex
  }

  function Below(n: nat): set<nat> {
    if n == 0 then {} else Below(n - 1) + {n - 1}
  }

  lemma {:induction false} IndexSetCount(s: seq<Slice>)
    requires IndexesDistinct(s)
    ensures |IndexSet(s)| == |s|
  {
    if s == [] {
      assert IndexSet(s) == {};
    } else {
      var front, last := s[..|s| - 1], s[|s| - 1];
      IndexSetCount(front);
      assert IndexSet(s) == IndexSet(front) + {last.sliceIndex};
    }
  }

  predicate HasIndex(s: seq<Slice>, k: nat) {
    exists i :: 0 <= i < |s| && s[i].sliceIndex == k
  }

  lemma {:induction false} BelowCount(n: nat)
    ensures |Below(n)| == n
    ensures forall k: nat :: k in Below(n) <==> k < n
  {
    if n > 0 {
      BelowCount(n - 1);
    }
  }

  lemma ValidParts(agentId: string, p: Plan)
    requires ValidPlan(agentId, p)
    ensures 0 < p.sliceCount == |p.slices|
    ensures IndexesDistinct(p.slices) && IndexesBelow(p.slices, p.sliceCount)
    ensures WindowsOrdered(p.slices, p.slotStartMs, p.slotEndMs)
  {
    assert p.slices[..|p.slices|] == p.slices;
  }

  /** A valid plan numbers its slices by a permutation of 0..slice_count-1. */
  lemma IndexesArePermutation(agentId: string, p: Plan)
    requires ValidPlan(agentId, p)
    ensures IndexSet(p.slices) == Below(p.sliceCount)
    ensures forall k :: 0 <= k < p.sliceCount ==> HasIndex(p.slices, k)
  {
    ValidParts(agentId, p);
    hide ValidPlan;
    IndexSetCount(p.slices);
    BelowCount(p.sliceCount);
    EqualCount(IndexSet(p.slices), Below(p.sliceCount));
    forall k | 0 <= k < p.sliceCount
      ensures HasIndex(p.slices, k)
    {
      assert k in Below(p.sliceCount);
    }
  }

  // --------------------------------------------------- dividing the inventory

  datatype Item = Item(name: string, detail: string)
  datatype Inventory = Inventory(packages: seq<Item>, modules: seq<Item>, services: seq<Item>, processes: seq<Item>)

  /** The first eight bytes of the digest of a kind and a name. */
  type Hash = (string, string) -> U64

  predicate SliceMembership(hash: Hash, kind: string, name: string, sliceIndex: nat, sliceCount: nat) {
    sliceCount <= 1 || hash(kind, name) % sliceCount == sliceIndex
  }

  function Select(hash: Hash, kind: string, items: seq<Item>, sliceIndex: nat, sliceCount: nat): seq<Item> {
    if items == [] then []
    else
      var rest := Select(hash, kind, items[1..], sliceIndex, sliceCount);
      if SliceMembership(hash, kind, items[0].name, sliceIndex, sliceCount) then [items[0]] + rest else rest
  }

  function SelectSliceInventory(hash: Hash, plan: Option<Plan>, cache: Inventory, sliceIndex: nat): Inventory {
    var sliceCount := if plan.Some? then Max(plan.value.sliceCount, 1) else 1;
    Inventory(Select(hash, "package", cache.packages, sliceIndex, sliceCount),
              Select(hash, "module", cache.modules, sliceIndex, sliceCount),
              Select(hash, "service", cache.services, sliceIndex, sliceCount),
              Select(hash, "process", cache.processes, sliceIndex, sliceCount))
  }

  lemma {:induction false} SelectCount(hash: Hash, kind: string, items: seq<Item>, k: nat, n: nat, x: Item)
    ensures multiset(Select(hash, kind, items, k, n))[x]
         == if SliceMembership(hash, kind, x.name, k, n) then multiset(items)[x] else 0
  {
    if items != [] {
      SelectCount(hash, kind, items[1..], k, n, x);
      assert items == [items[0]] + items[1..];
    }
  }

  /** Which items a slice takes: those whose hash leaves its index, or all when there is only one slice. */
  lemma {:induction false} SelectIff(hash: Hash, kind: string, items: seq<Item>, k: nat, n: nat, x: Item)
    ensures x in Select(hash, kind, items, k, n) <==> x in items && (n <= 1 || hash(kind, x.name) % n == k)
  {
    if items != [] {
      SelectIff(hash, kind, items[1..], k, n, x);
      assert items == [items[0]] + items[1..];
    }
  }

  /** `chosen` are the items at the increasing positions `at`. */
  predicate Picks(at: seq<nat>, items: seq<Item>, chosen: seq<Item>) {
    && |at| == |chosen|
    && (forall i, j :: 0 <= i < j < |at| ==> at[i] < at[j])
    && (forall i :: 0 <= i < |at| ==> at[i] < |items| && items[at[i]] == chosen[i])
  }

  function Later(at: seq<nat>): (r: seq<nat>)
    ensures |r| == |at| && forall i :: 0 <= i < |at| ==> r[i] == at[i] + 1
  {
    seq(|at|, i requires 0 <= i < |at| => at[i] + 1)
  }

  lemma PicksLater(at: seq<nat>, items: seq<Item>, chosen: seq<Item>)
    requires items != [] && Picks(at, items[1..], chosen)
    ensures Picks(Later(at), items, chosen)
  {
    assert forall i :: 0 <= i < |at| ==> items[at[i] + 1] == items[1..][at[i]];
  }

  lemma PicksFirst(at: seq<nat>, items: seq<Item>, chosen: seq<Item>)
    requires items != [] && Picks(Later(at), items, chosen)
    ensures Picks([0] + Later(at), items, [items[0]] + chosen)
  {
    hide Later;
  }

  /** A slice takes them in the order of the cache. */
  lemma {:induction false} SelectKeepsOrder(hash: Hash, kind: string, items: seq<Item>, k: nat, n: nat)
    returns (at: seq<nat>)
    ensures Picks(at, items, Select(hash, kind, items, k, n))
  {
    at := [];
    if items != [] {
      var rest := SelectKeepsOrder(hash, kind, items[1..], k, n);
      hide Picks, SliceMembership;
      var chosen := Select(hash, kind, items[1..], k, n);
      PicksLater(rest, items, chosen);
      PicksFirst(rest, items, chosen);
      at := if SliceMembership(hash, kind, items[0].name, k, n) then [0] + Later(rest) else Later(rest);
    }
  }

  /** Each kind of record is divided by the hash of its own kind and name. */
  lemma SliceTakesIff(hash: Hash, plan: Option<Plan>, cache: Inventory, k: nat, x: Item)
    ensures var n := if plan.Some? then plan.value.sliceCount else 1;
            var s := SelectSliceInventory(hash, plan, cache, k);
            && (x in s.packages <==> x in cache.packages && (n <= 1 || hash("package", x.name) % n == k))
            && (x in s.modules <==> x in cache.modules && (n <= 1 || hash("module", x.name) % n == k))
            && (x in s.services <==> x in cache.services && (n <= 1 || hash("service", x.name) % n == k))
            && (x in s.processes <==> x in cache.processes && (n <= 1 || hash("process", x.name) % n == k))
  {
    var n := if plan.Some? then Max(plan.value.sliceCount, 1) else 1;
    SelectIff(hash, "package", cache.packages, k, n, x);
    SelectIff(hash, "module", cache.modules, k, n, x);
    SelectIff(hash, "service", cache.services, k, n, x);
    SelectIff(hash, "process", cache.processes, k, n, x);
    hide Select;
  }

  /** All the items that the given slices select, with their multiplicities. */
  function Selected(hash: Hash, kind: string, items: seq<Item>, slices: seq<Slice>, n: nat): multiset<Item> {
    if slices == [] then multiset{}
    else multiset(Select(hash, kind, items, slices[0].sliceIndex, n)) + Selected(hash, kind, items, slices[1..], n)
  }

  /** How many of the slices take an item. */
  function Takers(hash: Hash, kind: string, name: string, slices: seq<Slice>, n: nat): nat {
    if slices == [] then 0
    else (if SliceMembership(hash, kind, name, slices[0].sliceIndex, n) then 1 else 0)
         + Takers(hash, kind, name, slices[1..], n)
  }

  /** An item counts once for every slice that takes it. */
  lemma {:induction false} SelectedCount(hash: Hash, kind: string, items: seq<Item>, slices: seq<Slice>, n: nat, x: Item)
    ensures Takers(hash, kind, x.name, slices, n) == 0 ==> Selected(hash, kind, items, slices, n)[x] == 0
    ensures Takers(hash, kind, x.name, slices, n) == 1 ==>
              Selected(hash, kind, items, slices, n)[x] == multiset(items)[x]
  {
    if slices != [] {
      hide Select, SliceMembership;
      SelectCount(hash, kind, items, slices[0].sliceIndex, n, x);
      SelectedCount(hash, kind, items, slices[1..], n, x);
    }
  }

  lemma {:induction false} TakersCount(hash: Hash, kind: string, name: string, slices: seq<Slice>, n: nat)
    requires n > 1 && IndexesDistinct(slices)
    ensures Takers(hash, kind, name, slices, n) == if hash(kind, name) % n in IndexSet(slices) then 1 else 0
  {
    if slices != [] {
      TakersCount(hash, kind, name, slices[1..], n);
      assert IndexSet(slices) == {slices[0].sliceIndex} + IndexSet(slices[1..]);
    }
  }

  /** Under a valid plan every item of every kind is taken by exactly one slice. */
  lemma OneTaker(agentId: string, p: Plan, hash: Hash, kind: string, name: string)
    requires ValidPlan(agentId, p)
    ensures Takers(hash, kind, name, p.slices, p.sliceCount) == 1
  {
    hide ValidPlan, IndexesDistinct, IndexesBelow, WindowsOrdered;
    ValidParts(agentId, p);
    if p.sliceCount > 1 {
      hide Takers;
      TakersCount(hash, kind, name, p.slices, p.sliceCount);
      IndexesArePermutation(agentId, p);
      BelowCount(p.sliceCount);
    } else {
      assert p.slices[1..] == [];
      assert Takers(hash, kind, name, p.slices[1..], p.sliceCount) == 0;
    }
  }

  lemma SelectedIsAll(agentId: string, p: Plan, hash: Hash, kind: string, items: seq<Item>)
    requires ValidPlan(agentId, p)
    ensures Selected(hash, kind, items, p.slices, p.sliceCount) == multiset(items)
  {
    forall x: Item
      ensures Selected(hash, kind, items, p.slices, p.sliceCount)[x] == multiset(items)[x]
    {
      SelectedCount(hash, kind, items, p.slices, p.sliceCount, x);
      OneTaker(agentId, p, hash, kind, x.name);
    }
  }

  datatype Totals = Totals(
    packages: multiset<Item>, modules: multiset<Item>, services: multiset<Item>, processes: multiset<Item>)

  function Union(a: Inventory, rest: Totals): Totals {
    Totals(multiset(a.packages) + rest.packages, multiset(a.modules) + rest.modules,
           multiset(a.services) + rest.services, multiset(a.processes) + rest.processes)
  }

  /** What the reports for all the slices carry together. */
  function Reported(hash: Hash, p: Plan, cache: Inventory, slices: seq<Slice>): Totals {
    if slices == [] then Totals(multiset{}, multiset{}, multiset{}, multiset{})
    else Union(SelectSliceInventory(hash, Some(p), cache, slices[0].sliceIndex), Reported(hash, p, cache, slices[1..]))
  }

  lemma {:induction false} ReportedParts(hash: Hash, p: Plan, cache: Inventory, slices: seq<Slice>)
    requires p.sliceCount > 0
    ensures Reported(hash, p, cache, slices) ==
            Totals(Selected(hash, "package", cache.packages, slices, p.sliceCount),
                   Selected(hash, "module", cache.modules, slices, p.sliceCount),
                   Selected(hash, "service", cache.services, slices, p.sliceCount),
                   Selected(hash, "process", cache.processes, slices, p.sliceCount))
  {
    if slices != [] {
      ReportedParts(hash, p, cache, slices[1..]);
    }
  }

  /** Conservation: over the slices of a valid plan the reports carry the whole cache, every record exactly once. */
  lemma SlicesConserveInventory(agentId: string, p: Plan, hash: Hash, cache: Inventory)
    requires ValidPlan(agentId, p)
    ensures Reported(hash, p, cache, p.slices) ==
            Totals(multiset(cache.packages), multiset(cache.modules), multiset(cache.services), multiset(cache.processes))
  {
    hide Selected, Reported, ValidPlan, IndexesDistinct, IndexesBelow, WindowsOrdered;
    ValidParts(agentId, p);
    ReportedParts(hash, p, cache, p.slices);
    SelectedIsAll(agentId, p, hash, "package", cache.packages);
    SelectedIsAll(agentId, p, hash, "module", cache.modules);
    SelectedIsAll(agentId, p, hash, "service", cache.services);
    SelectedIsAll(agentId, p, hash, "process", cache.processes);
  }
}
