/** The AER event codec: stable sort, timestamp deltas, LEB128 varints. */
module Aer {
  import Lists
  import opened Machine

  datatype AerEvent = AerEvent(ts: U64, addr: U32, value: Byte)
  datatype AerError = InvalidMagic | Truncated | VarintOverflow

  const MAGIC: seq<Byte> := [0x41, 0x45, 0x52, 0x31] // "AER1"

  /** The growable byte vector that the encoder pushes into. */
  class ByteBuffer {
    var bytes: seq<Byte>

    constructor ()
      ensures bytes == []
    {
      bytes := [];
    }

    method Push(b: Byte)
      modifies this
      ensures bytes == old(bytes) + [b]
    {
      bytes := bytes + [b];
    }

    method Extend(more: seq<Byte>)
      modifies this
      ensures bytes == old(bytes) + more
    {
      bytes := bytes + more;
    }
  }

  lemma ConcatAssoc<T>(a: seq<T>, b: seq<T>, c: seq<T>)
    ensures (a + b) + c == a + (b + c)
  {
  }

  // ---------------------------------------------------------------- varints

  /** The number a LEB128 group stands for: seven payload bits a byte, least significant first. */
  function Leb(s: seq<Byte>): nat {
    if s == [] then 0 else s[0] % 128 + 128 * Leb(s[1..])
  }

  /** A whole group: every byte but the last has its continuation bit set. */
  predicate IsGroup(s: seq<Byte>) {
    && |s| > 0
    && s[|s| - 1] < 128
    && forall i :: 0 <= i < |s| - 1 ==> s[i] >= 128
  }

  /** The group that the encoder writes for `v`. */
  function Varint(v: nat): (s: seq<Byte>)
    ensures |s| > 0
  {
    if v < 128 then [v] else [v % 128 + 128] + Varint(v / 128)
  }

  lemma {:induction false} VarintIsGroup(v: nat)
    ensures IsGroup(Varint(v)) && Leb(Varint(v)) == v
  {
    if v >= 128 {
      VarintIsGroup(v / 128);
      assert Varint(v)[1..] == Varint(v / 128);
    }
  }

  function Pow128(n: nat): (p: nat)
    ensures p >= 1
  {
    if n == 0 then 1 else 128 * Pow128(n - 1)
  }

  lemma Pow128Values()
    ensures Pow128(9) == 0x8000_0000_0000_0000
  {
    assert Pow128(3) == 0x20_0000;
    assert Pow128(6) == 0x400_0000_0000;
  }

  lemma {:induction false} Pow128Monotone(i: nat, j: nat)
    requires i <= j
    ensures Pow128(i) <= Pow128(j)
    decreases j
  {
    if i < j {
      Pow128Monotone(i, j - 1);
    }
  }

  lemma {:induction false} LebBound(s: seq<Byte>)
    ensures Leb(s) < Pow128(|s|)
  {
    if s != [] {
      LebBound(s[1..]);
    }
  }

  lemma {:induction false} LebSnoc(s: seq<Byte>, b: Byte)
    ensures Leb(s + [b]) == Leb(s) + b % 128 * Pow128(|s|)
  {
    if s == [] {
      assert [b][1..] == [];
      assert s + [b] == [b];
    } else {
      LebSnoc(s[1..], b);
      assert (s + [b])[1..] == s[1..] + [b];
      assert 128 * (b % 128 * Pow128(|s| - 1)) == b % 128 * Pow128(|s|);
    }
  }

  lemma LebSplit(s: seq<Byte>)
    requires s != []
    ensures Leb(s) % 128 == s[0] % 128 && Leb(s) / 128 == Leb(s[1..])
  {
  }

  lemma VarintUnfold(v: nat)
    ensures v < 128 ==> Varint(v) == [v]
    ensures v >= 128 ==> Varint(v) == [v % 128 + 128] + Varint(v / 128)
  {
  }

  lemma VarintGrows(s: seq<Byte>)
    requires |s| > 1 && s[0] >= 128
    requires |Varint(Leb(s[1..]))| <= |s| - 1
    ensures |Varint(Leb(s))| <= |s|
    ensures |Varint(Leb(s))| == |s| ==> |Varint(Leb(s[1..]))| == |s| - 1
    ensures |Varint(Leb(s))| == |s| && Varint(Leb(s[1..])) == s[1..] ==> Varint(Leb(s)) == s
  {
    hide Varint, Leb, IsGroup;
    LebSplit(s);
    VarintUnfold(Leb(s));
    assert s == [s[0]] + s[1..];
  }

  /** No group for the same number is shorter than the one the encoder writes. */
  lemma {:induction false} VarintIsShortest(s: seq<Byte>)
    requires IsGroup(s)
    ensures |Varint(Leb(s))| <= |s|
    ensures |Varint(Leb(s))| == |s| ==> Varint(Leb(s)) == s
    decreases |s|
  {
    if |s| == 1 {
      VarintUnfold(Leb(s));
      assert Leb(s) == s[0];
    } else {
      hide Varint, Leb;
      VarintIsShortest(s[1..]);
      VarintGrows(s);
    }
  }

  lemma {:induction false} VarintLength(v: nat, n: nat)
    requires n > 0 && v < Pow128(n)
    ensures |Varint(v)| <= n
    decreases n
  {
    if v >= 128 {
      VarintLength(v / 128, n - 1);
    }
  }

  lemma U64VarintLength(v: U64)
    ensures |Varint(v)| <= 10
  {
    Pow128Values();
    VarintLength(v, 10);
  }

  lemma WriteStep(before: seq<Byte>, v: nat)
    requires v >= 128
    ensures before + Varint(v) == (before + [v % 128 + 128]) + Varint(v / 128)
  {
    VarintUnfold(v);
  }

  method WriteVarint(value: U64, out: ByteBuffer)
    modifies out
    ensures out.bytes == old(out.bytes) + Varint(value)
  {
    var v := value;
    while v >= 0x80
      invariant out.bytes + Varint(v) == old(out.bytes) + Varint(value)
    {
      WriteStep(out.bytes, v);
      out.Push(v % 128 + 128);
      v := v / 128;
    }
    out.Push(v);
  }

  /** How many bytes at the front have their continuation bit set. */
  function Continuations(bytes: seq<Byte>): (n: nat)
    ensures n <= |bytes|
    ensures forall i :: 0 <= i < n ==> bytes[i] >= 128
    ensures n < |bytes| ==> bytes[n] < 128
  {
    if bytes == [] || bytes[0] < 128 then 0 else 1 + Continuations(bytes[1..])
  }

  function Low64(n: nat): U64 {
    n % 0x1_0000_0000_0000_0000
  }

  /** `val << shift` on a u64: bits shifted past position 63 are lost. */
  function Shl(val: nat, shift: nat): U64 {
    Low64(val * Pow2(shift))
  }

  /** What reading one varint means: the first group, at most ten bytes long, modulo 2^64. */
  function FirstVarint(bytes: seq<Byte>): (r: Result<(U64, nat), AerError>)
    ensures r.Ok? ==> 0 < r.value.1 <= |bytes|
  {
    var n := Continuations(bytes);
    if n >= 10 then Err(VarintOverflow)
    else if n < |bytes| then Ok((Low64(Leb(bytes[..n + 1])), n + 1))
    else Err(Truncated)
  }

  lemma PrefixFits(bytes: seq<Byte>, i: nat)
    requires i <= |bytes| && i <= 9
    ensures Leb(bytes[..i]) < 0x8000_0000_0000_0000
  {
    LebBound(bytes[..i]);
    Pow128Monotone(i, 9);
    Pow128Values();
  }

  lemma WrapAtTopBit(low: nat, val: nat)
    requires low < 0x8000_0000_0000_0000 && val < 128
    ensures low + Low64(val * 0x8000_0000_0000_0000) == Low64(low + val * 0x8000_0000_0000_0000)
  {
    var bit, rest := val % 2, val / 2;
    assert val * 0x8000_0000_0000_0000 == bit * 0x8000_0000_0000_0000 + rest * 0x1_0000_0000_0000_0000;
  }

  lemma {:induction false} ShiftIsPow128(i: nat)
    ensures Pow2(7 * i) == Pow128(i)
  {
    if i > 0 {
      ShiftIsPow128(i - 1);
      var n := 7 * i;
      assert Pow2(n) == 2 * Pow2(n - 1);
      assert Pow2(n - 1) == 2 * Pow2(n - 2);
      assert Pow2(n - 2) == 2 * Pow2(n - 3);
      assert Pow2(n - 3) == 2 * Pow2(n - 4);
      assert Pow2(n - 4) == 2 * Pow2(n - 5);
      assert Pow2(n - 5) == 2 * Pow2(n - 6);
      assert Pow2(n - 6) == 2 * Pow2(n - 7);
    }
  }

  /** One step of the accumulator: seven more bits shifted in at `7 * i`, the bits shifted past 63 lost. */
  lemma AccumulateStep(bytes: seq<Byte>, i: nat)
    requires i < |bytes| && i <= 9
    ensures Leb(bytes[..i]) + Shl(bytes[i] % 128, 7 * i) == Low64(Leb(bytes[..i + 1]))
  {
    hide Leb, Pow128, Pow2;
    ShiftIsPow128(i);
    LebSnoc(bytes[..i], bytes[i]);
    assert bytes[..i + 1] == bytes[..i] + [bytes[i]];
    if i < 9 {
      PrefixFits(bytes, i + 1);
      assert 0 <= bytes[i] % 128 * Pow128(i);
    } else {
      PrefixFits(bytes, i);
      Pow128Values();
      WrapAtTopBit(Leb(bytes[..i]), bytes[i] % 128);
    }
  }

  predicate AllContinue(bytes: seq<Byte>, n: nat)
    requires n <= |bytes|
  {
    forall i :: 0 <= i < n ==> bytes[i] >= 128
  }

  lemma AllContinueStep(bytes: seq<Byte>, n: nat)
    requires n < |bytes| && AllContinue(bytes, n) && bytes[n] >= 128
    ensures AllContinue(bytes, n + 1)
  {
  }

  lemma LowFits(bytes: seq<Byte>, i: nat)
    requires i <= |bytes| && i <= 9
    ensures Low64(Leb(bytes[..i])) == Leb(bytes[..i])
  {
    PrefixFits(bytes, i);
  }

  lemma {:induction false} ContinuationsAtLeast(bytes: seq<Byte>, n: nat)
    requires n <= |bytes| && forall i :: 0 <= i < n ==> bytes[i] >= 128
    ensures Continuations(bytes) >= n
  {
    if n > 0 {
      ContinuationsAtLeast(bytes[1..], n - 1);
    }
  }

  lemma ContinuationsAt(bytes: seq<Byte>, n: nat)
    requires n < |bytes| && bytes[n] < 128
    requires forall i :: 0 <= i < n ==> bytes[i] >= 128
    ensures Continuations(bytes) == n
  {
    ContinuationsAtLeast(bytes, n);
  }

  lemma GroupEnds(bytes: seq<Byte>, i: nat)
    requires i < |bytes| && i <= 9 && AllContinue(bytes, i) && bytes[i] < 128
    ensures FirstVarint(bytes) == Ok((Low64(Leb(bytes[..i + 1])), i + 1))
  {
    hide Leb, Continuations;
    ContinuationsAt(bytes, i);
  }

  lemma GroupNeverEnds(bytes: seq<Byte>, n: nat)
    requires n <= |bytes| && AllContinue(bytes, n)
    ensures n == 10 ==> FirstVarint(bytes) == Err(VarintOverflow)
    ensures n == |bytes| && n < 10 ==> FirstVarint(bytes) == Err(Truncated)
  {
    hide Leb, Continuations;
    ContinuationsAtLeast(bytes, n);
  }

  method ReadVarint(bytes: seq<Byte>) returns (r: Result<(U64, nat), AerError>)
    ensures r == FirstVarint(bytes)
  {
    var result: U64 := 0;
    var shift := 0;
    assert Leb(bytes[..0]) == 0;
    assert AllContinue(bytes, 0);
    hide *;
    for i := 0 to |bytes|
      invariant i <= 9 && shift == 7 * i
      invariant AllContinue(bytes, i)
      invariant result == Leb(bytes[..i])
    {
      var b := bytes[i];
      var val := b % 128;
      AccumulateStep(bytes, i);
      result := result + Shl(val, shift);
      if b < 128 {
        GroupEnds(bytes, i);
        return Ok((result, i + 1));
      }
      shift := shift + 7;
      if shift >= 64 {
        AllContinueStep(bytes, i);
        GroupNeverEnds(bytes, 10);
        return Err(VarintOverflow);
      }
      AllContinueStep(bytes, i);
      LowFits(bytes, i + 1);
    }
    GroupNeverEnds(bytes, |bytes|);
    return Err(Truncated);
  }

  /** Reading back what was written consumes exactly the written bytes and loses nothing. */
  lemma VarintRoundTrip(v: U64, rest: seq<Byte>)
    ensures FirstVarint(Varint(v) + rest) == Ok((v, |Varint(v)|))
  {
    var s := Varint(v);
    U64VarintLength(v);
    VarintIsGroup(v);
    hide Varint, Leb, Continuations;
    ContinuationsAt(s + rest, |s| - 1);
    assert (s + rest)[..|s|] == s;
  }

  /** A varint cut short is reported as truncated, never as an overflow or a smaller number. */
  lemma VarintCut(v: U64, k: nat)
    requires k < |Varint(v)|
    ensures FirstVarint(Varint(v)[..k]) == Err(Truncated)
  {
    U64VarintLength(v);
    VarintIsGroup(v);
    hide Varint, Leb, Continuations;
    ContinuationsAtLeast(Varint(v)[..k], k);
  }

  // ------------------------------------------------------- little-endian u64

  function ToLe(v: nat, n: nat): (s: seq<Byte>)
    ensures |s| == n
  {
    if n == 0 then [] else [v % 256] + ToLe(v / 256, n - 1)
  }

  function FromLe(s: seq<Byte>): nat {
    if s == [] then 0 else s[0] + 256 * FromLe(s[1..])
  }

  function Pow256(n: nat): nat {
    if n == 0 then 1 else 256 * Pow256(n - 1)
  }

  lemma {:induction false} FromToLe(v: nat, n: nat)
    requires v < Pow256(n)
    ensures FromLe(ToLe(v, n)) == v
    decreases n
  {
    if n > 0 {
      FromToLe(v / 256, n - 1);
    }
  }

  lemma {:induction false} FromLeBound(s: seq<Byte>)
    ensures FromLe(s) < Pow256(|s|)
  {
    if s != [] {
      FromLeBound(s[1..]);
    }
  }

  lemma Pow256Eight()
    ensures Pow256(8) == 0x1_0000_0000_0000_0000
  {
    assert Pow256(4) == 0x1_0000_0000;
  }

  // ------------------------------------------------------------ stable sort

  predicate SortedByTs(s: seq<AerEvent>) {
    forall i, j :: 0 <= i < j < |s| ==> s[i].ts <= s[j].ts
  }

  /** The events with timestamp `t`, in order. */
  function WithTs(s: seq<AerEvent>, t: U64): seq<AerEvent> {
    if s == [] then []
    else if s[0].ts == t then [s[0]] + WithTs(s[1..], t)
    else WithTs(s[1..], t)
  }

  predicate Earlier(a: AerEvent, b: AerEvent) {
    a.ts < b.ts
  }

  /** Sorts by timestamp, each event placed behind the earlier ones with the same timestamp. */
  function StableSort(s: seq<AerEvent>): (r: seq<AerEvent>)
    ensures |r| == |s|
  {
    Lists.SortMembers(Earlier, s);
    Lists.Sort(Earlier, s)
  }

  /** Reordering that keeps, for every timestamp, the events that carry it in their order. */
  ghost predicate StableRearrangement(a: seq<AerEvent>, b: seq<AerEvent>) {
    forall t: U64 :: WithTs(a, t) == WithTs(b, t)
  }

  lemma {:induction false} WithTsSnoc(s: seq<AerEvent>, e: AerEvent, t: U64)
    ensures WithTs(s + [e], t) == WithTs(s, t) + (if e.ts == t then [e] else [])
  {
    if s == [] {
      assert s + [e] == [e];
    } else {
      WithTsSnoc(s[1..], e, t);
      assert (s + [e])[1..] == s[1..] + [e];
    }
  }

  lemma {:induction false} WithTsAbove(s: seq<AerEvent>, t: U64)
    requires forall i :: 0 <= i < |s| ==> s[i].ts > t
    ensures WithTs(s, t) == []
  {
    if s != [] {
      WithTsAbove(s[1..], t);
    }
  }

  lemma {:induction false} InsertSorts(e: AerEvent, s: seq<AerEvent>)
    requires SortedByTs(s)
    ensures SortedByTs(Lists.Insert(Earlier, e, s))
  {
    if s != [] && s[0].ts <= e.ts {
      var r := Lists.Insert(Earlier, e, s[1..]);
      InsertSorts(e, s[1..]);
      Lists.InsertMembers(Earlier, e, s[1..]);
      forall i | 0 <= i < |r|
        ensures s[0].ts <= r[i].ts
      {
        assert r[i] in Lists.Members(r);
      }
    }
  }

  lemma {:induction false} InsertKeepsOrder(e: AerEvent, s: seq<AerEvent>, t: U64)
    requires SortedByTs(s)
    ensures WithTs(Lists.Insert(Earlier, e, s), t) == WithTs(s, t) + (if e.ts == t then [e] else [])
  {
    if s == [] {
    } else if s[0].ts <= e.ts {
      InsertKeepsOrder(e, s[1..], t);
      assert Lists.Insert(Earlier, e, s)[1..] == Lists.Insert(Earlier, e, s[1..]);
    } else {
      assert ([e] + s)[1..] == s;
      if e.ts == t {
        WithTsAbove(s, t);
      }
    }
  }

  /** The sort is a sort, and it is stable. */
  lemma {:induction false} StableSortSorts(s: seq<AerEvent>, t: U64)
    ensures SortedByTs(StableSort(s))
    ensures WithTs(StableSort(s), t) == WithTs(s, t)
  {
    if s != [] {
      var front, e := s[..|s| - 1], s[|s| - 1];
      StableSortSorts(front, t);
      InsertSorts(e, StableSort(front));
      InsertKeepsOrder(e, StableSort(front), t);
      WithTsSnoc(front, e, t);
      assert s == front + [e];
    }
  }

  lemma {:induction false} WithTsMember(s: seq<AerEvent>, t: U64)
    ensures forall i :: 0 <= i < |WithTs(s, t)| ==> WithTs(s, t)[i] in s && WithTs(s, t)[i].ts == t
    ensures (exists i :: 0 <= i < |s| && s[i].ts == t) ==> WithTs(s, t) != []
  {
    if s != [] {
      WithTsMember(s[1..], t);
      if exists i :: 0 <= i < |s| && s[i].ts == t {
        var i :| 0 <= i < |s| && s[i].ts == t;
        if i > 0 {
          assert s[1..][i - 1] == s[i];
        }
      }
    }
  }

  lemma HeadNotAbove(a: seq<AerEvent>, b: seq<AerEvent>)
    requires b != [] && SortedByTs(a) && StableRearrangement(a, b)
    ensures a != [] && a[0].ts <= b[0].ts
  {
    var t := b[0].ts;
    WithTsMember(b, t);
    WithTsMember(a, t);
    assert WithTs(b, t) == WithTs(a, t);
    var e := WithTs(a, t)[0];
    assert e in a && e.ts == t;
  }

  /** A stable sort has only one possible result. */
  lemma {:induction false} StableSortIsUnique(a: seq<AerEvent>, b: seq<AerEvent>)
    requires SortedByTs(a) && SortedByTs(b) && StableRearrangement(a, b)
    ensures a == b
    decreases |a|
  {
    if a == [] {
      if b != [] {
        HeadNotAbove(a, b);
      }
    } else {
      HeadNotAbove(b, a);
      HeadNotAbove(a, b);
      var t0 := a[0].ts;
      assert WithTs(a, t0)[0] == a[0] && WithTs(b, t0)[0] == b[0];
      forall t: U64
        ensures WithTs(a[1..], t) == WithTs(b[1..], t)
      {
        assert WithTs(a, t) == WithTs(b, t);
        if t == t0 {
          assert WithTs(a[1..], t) == WithTs(a, t)[1..];
          assert WithTs(b[1..], t) == WithTs(b, t)[1..];
        }
      }
      StableSortIsUnique(a[1..], b[1..]);
    }
  }

  lemma StableSortOfSorted(s: seq<AerEvent>)
    requires SortedByTs(s)
    ensures StableSort(s) == s
  {
    StableSortSorts(s, 0);
    forall t: U64
      ensures WithTs(StableSort(s), t) == WithTs(s, t)
    {
      StableSortSorts(s, t);
    }
    StableSortIsUnique(StableSort(s), s);
  }

  // --------------------------------------------------------------- encoding

  function EventBytes(e: AerEvent, prev: U64): (r: seq<Byte>)
    ensures |r| >= 3
  {
    Varint(SatSub(e.ts, prev)) + Varint(e.addr) + Varint(e.value)
  }

  function Body(events: seq<AerEvent>, prev: U64): seq<Byte> {
    if events == [] then [] else EventBytes(events[0], prev) + Body(events[1..], events[0].ts)
  }

  function Encode(events: seq<AerEvent>): seq<Byte> {
    if events == [] then []
    else
      var sorted := StableSort(events);
      MAGIC + ToLe(sorted[0].ts, 8) + Body(sorted, sorted[0].ts)
  }

  method WriteEvent(ev: AerEvent, prevTs: U64, out: ByteBuffer)
    modifies out
    ensures out.bytes == old(out.bytes) + EventBytes(ev, prevTs)
  {
    hide Varint;
    WriteVarint(SatSub(ev.ts, prevTs), out);
    WriteVarint(ev.addr, out);
    WriteVarint(ev.value, out);
  }

  lemma BodyStep(before: seq<Byte>, sorted: seq<AerEvent>, i: nat, prev: U64)
    requires i < |sorted|
    ensures before + Body(sorted[i..], prev)
         == (before + EventBytes(sorted[i], prev)) + Body(sorted[i + 1..], sorted[i].ts)
  {
    hide EventBytes;
    assert sorted[i..][1..] == sorted[i + 1..];
  }

  method EncodeEvents(events: seq<AerEvent>) returns (bytes: seq<Byte>)
    ensures bytes == Encode(events)
  {
    if events == [] {
      return [];
    }
    var sorted := StableSort(events);
    var baseTs := sorted[0].ts;
    var out := new ByteBuffer();
    out.Extend(MAGIC);
    out.Extend(ToLe(baseTs, 8));
    var prevTs := baseTs;
    assert sorted[0..] == sorted;
    for i := 0 to |sorted|
      invariant out.bytes + Body(sorted[i..], prevTs) == Encode(events)
    {
      hide Body, EventBytes, Encode, StableSort;
      BodyStep(out.bytes, sorted, i, prevTs);
      WriteEvent(sorted[i], prevTs, out);
      prevTs := sorted[i].ts;
    }
    return out.bytes;
  }

  // --------------------------------------------------------------- decoding

  function DecodeEvent(bytes: seq<Byte>, prev: U64): (r: Result<(AerEvent, nat), AerError>)
    ensures r.Ok? ==> 0 < r.value.1 <= |bytes|
  {
    match FirstVarint(bytes)
    case Err(e) => Err(e)
    case Ok(delta) =>
      match FirstVarint(bytes[delta.1..])
      case Err(e) => Err(e)
      case Ok(addr) =>
        match FirstVarint(bytes[delta.1 + addr.1..])
        case Err(e) => Err(e)
        case Ok(value) =>
          Ok((AerEvent(SatAdd(prev, delta.0), addr.0 % 0x1_0000_0000, value.0 % 0x100), delta.1 + addr.1 + value.1))
  }

  function DecodeBody(bytes: seq<Byte>, prev: U64): Result<seq<AerEvent>, AerError>
    decreases |bytes|
  {
    if bytes == [] then Ok([])
    else
      match DecodeEvent(bytes, prev)
      case Err(e) => Err(e)
      case Ok(first) =>
        match DecodeBody(bytes[first.1..], first.0.ts)
        case Err(e) => Err(e)
        case Ok(rest) => Ok([first.0] + rest)
  }

  function BaseTs(bytes: seq<Byte>): U64
    requires |bytes| >= 12
  {
    FromLeBound(bytes[4..12]);
    Pow256Eight();
    FromLe(bytes[4..12])
  }

  function Decode(bytes: seq<Byte>): Result<seq<AerEvent>, AerError> {
    if |bytes| < 12 then Err(Truncated)
    else if bytes[..4] != MAGIC then Err(InvalidMagic)
    else DecodeBody(bytes[12..], BaseTs(bytes))
  }

  method ReadEvent(bytes: seq<Byte>, prevTs: U64) returns (r: Result<(AerEvent, nat), AerError>)
    ensures r == DecodeEvent(bytes, prevTs)
  {
    hide FirstVarint;
    var delta := ReadVarint(bytes);
    if delta.Err? {
      return Err(delta.error);
    }
    var idx := delta.value.1;
    var addr := ReadVarint(bytes[idx..]);
    if addr.Err? {
      return Err(addr.error);
    }
    idx := idx + addr.value.1;
    var value := ReadVarint(bytes[idx..]);
    if value.Err? {
      return Err(value.error);
    }
    idx := idx + value.value.1;
    return Ok((AerEvent(SatAdd(prevTs, delta.value.0), addr.value.0 % 0x1_0000_0000, value.value.0 % 0x100), idx));
  }

  function Prepend(front: seq<AerEvent>, r: Result<seq<AerEvent>, AerError>): Result<seq<AerEvent>, AerError> {
    if r.Err? then r else Ok(front + r.value)
  }

  lemma PrependOne(front: seq<AerEvent>, e: AerEvent, r: Result<seq<AerEvent>, AerError>)
    ensures Prepend(front, Prepend([e], r)) == Prepend(front + [e], r)
  {
    if r.Ok? {
      assert front + ([e] + r.value) == (front + [e]) + r.value;
    }
  }

  lemma DecodeStep(events: seq<AerEvent>, bytes: seq<Byte>, idx: nat, prev: U64)
    requires idx < |bytes|
    ensures var all, next := Prepend(events, DecodeBody(bytes[idx..], prev)), DecodeEvent(bytes[idx..], prev);
            match next
            case Err(e) => all == Err(e)
            case Ok(first) =>
              all == Prepend(events + [first.0], DecodeBody(bytes[idx + first.1..], first.0.ts))
  {
    hide DecodeEvent;
    var next := DecodeEvent(bytes[idx..], prev);
    if next.Ok? {
      assert bytes[idx..][next.value.1..] == bytes[idx + next.value.1..];
      PrependOne(events, next.value.0, DecodeBody(bytes[idx + next.value.1..], next.value.0.ts));
    }
  }

  lemma PrependNone(r: Result<seq<AerEvent>, AerError>)
    ensures Prepend([], r) == r
  {
    if r.Ok? {
      assert [] + r.value == r.value;
    }
  }

  lemma DecodeHeader(bytes: seq<Byte>)
    ensures |bytes| < 12 ==> Decode(bytes) == Err(Truncated)
    ensures |bytes| >= 12 && bytes[..4] != MAGIC ==> Decode(bytes) == Err(InvalidMagic)
    ensures |bytes| >= 12 && bytes[..4] == MAGIC ==>
              Decode(bytes) == Prepend([], DecodeBody(bytes[12..], BaseTs(bytes)))
  {
    hide DecodeBody, BaseTs;
    if |bytes| >= 12 {
      PrependNone(DecodeBody(bytes[12..], BaseTs(bytes)));
    }
  }

  lemma DecodeDone(events: seq<AerEvent>, bytes: seq<Byte>, prev: U64)
    ensures Prepend(events, DecodeBody(bytes[|bytes|..], prev)) == Ok(events)
  {
    assert bytes[|bytes|..] == [] && events + [] == events;
  }

  method DecodeEvents(bytes: seq<Byte>) returns (r: Result<seq<AerEvent>, AerError>)
    ensures r == Decode(bytes)
  {
    hide *;
    DecodeHeader(bytes);
    if |bytes| < 12 {
      return Err(Truncated);
    }
    if bytes[..4] != MAGIC {
      return Err(InvalidMagic);
    }
    var idx := 12;
    var prevTs := BaseTs(bytes);
    var events: seq<AerEvent> := [];
    while idx < |bytes|
      invariant 12 <= idx <= |bytes|
      invariant Decode(bytes) == Prepend(events, DecodeBody(bytes[idx..], prevTs))
      decreases |bytes| - idx
    {
      DecodeStep(events, bytes, idx, prevTs);
      var next := ReadEvent(bytes[idx..], prevTs);
      if next.Err? {
        return Err(next.error);
      }
      idx := idx + next.value.1;
      prevTs := next.value.0.ts;
      events := events + [next.value.0];
    }
    DecodeDone(events, bytes, prevTs);
    return Ok(events);
  }

  // ------------------------------------------------------------- round trip

  /** The event just written is the event read back, and nothing saturates on the way. */
  lemma EventRoundTrip(e: AerEvent, prev: U64, rest: seq<Byte>)
    requires prev <= e.ts
    ensures DecodeEvent(EventBytes(e, prev) + rest, prev) == Ok((e, |EventBytes(e, prev)|))
  {
    hide Varint, FirstVarint;
    var d, a, v := Varint(SatSub(e.ts, prev)), Varint(e.addr), Varint(e.value);
    var all := EventBytes(e, prev) + rest;
    assert all == d + (a + v + rest);
    assert all[|d|..] == a + (v + rest);
    assert all[|d| + |a|..] == v + rest;
    VarintRoundTrip(SatSub(e.ts, prev), a + v + rest);
    VarintRoundTrip(e.addr, v + rest);
    VarintRoundTrip(e.value, rest);
  }

  predicate NoneBefore(events: seq<AerEvent>, prev: U64) {
    forall i :: 0 <= i < |events| ==> prev <= events[i].ts
  }

  lemma BodyCons(events: seq<AerEvent>, prev: U64)
    requires events != []
    ensures Body(events, prev) == EventBytes(events[0], prev) + Body(events[1..], events[0].ts)
  {
    hide EventBytes;
  }

  lemma SortedTail(events: seq<AerEvent>, prev: U64)
    requires events != [] && SortedByTs(events) && NoneBefore(events, prev)
    ensures prev <= events[0].ts
    ensures SortedByTs(events[1..]) && NoneBefore(events[1..], events[0].ts)
  {
  }

  lemma DecodeBodyCons(bytes: seq<Byte>, prev: U64, e: AerEvent, n: nat, rest: seq<AerEvent>)
    requires n <= |bytes| && DecodeEvent(bytes, prev) == Ok((e, n))
    requires DecodeBody(bytes[n..], e.ts) == Ok(rest)
    ensures DecodeBody(bytes, prev) == Ok([e] + rest)
  {
    hide DecodeEvent;
  }

  lemma DecodeBodyHead(head: seq<Byte>, rest: seq<Byte>, prev: U64, e: AerEvent, tail: seq<AerEvent>)
    requires DecodeEvent(head + rest, prev) == Ok((e, |head|)) && DecodeBody(rest, e.ts) == Ok(tail)
    ensures DecodeBody(head + rest, prev) == Ok([e] + tail)
  {
    hide *;
    assert (head + rest)[|head|..] == rest;
    DecodeBodyCons(head + rest, prev, e, |head|, tail);
  }

  lemma {:induction false} BodyRoundTrip(events: seq<AerEvent>, prev: U64)
    requires SortedByTs(events) && NoneBefore(events, prev)
    ensures DecodeBody(Body(events, prev), prev) == Ok(events)
  {
    if events != [] {
      var e, rest := events[0], Body(events[1..], events[0].ts);
      hide *;
      SortedTail(events, prev);
      BodyRoundTrip(events[1..], e.ts);
      EventRoundTrip(e, prev, rest);
      BodyCons(events, prev);
      DecodeBodyHead(EventBytes(e, prev), rest, prev, e, events[1..]);
      assert [e] + events[1..] == events;
    }
  }

  lemma HeaderRoundTrip(base: U64, body: seq<Byte>)
    ensures var bytes := MAGIC + ToLe(base, 8) + body;
            |bytes| == 12 + |body| && bytes[..4] == MAGIC && BaseTs(bytes) == base && bytes[12..] == body
  {
    var bytes := MAGIC + ToLe(base, 8) + body;
    Pow256Eight();
    FromToLe(base, 8);
    assert bytes[4..12] == ToLe(base, 8);
  }

  /** Decoding an encoding gives the stable sort by timestamp: no event is lost, changed or reordered further. */
  lemma RoundTrip(events: seq<AerEvent>)
    requires events != []
    ensures Decode(Encode(events)) == Ok(StableSort(events))
  {
    var sorted := StableSort(events);
    StableSortSorts(events, 0);
    HeaderRoundTrip(sorted[0].ts, Body(sorted, sorted[0].ts));
    BodyRoundTrip(sorted, sorted[0].ts);
  }

  /** Zero events encode to zero bytes, the one encoding that the decoder refuses. */
  lemma EncodingDecodesIffNonEmpty(events: seq<AerEvent>)
    ensures Decode(Encode(events)).Ok? <==> events != []
    ensures events == [] ==> Decode(Encode(events)) == Err(Truncated)
  {
    if events != [] {
      RoundTrip(events);
    }
  }

  /** Two event lists share an encoding exactly when they have the same stable sort. */
  lemma EncodingIdentifiesSort(a: seq<AerEvent>, b: seq<AerEvent>)
    ensures Encode(a) == Encode(b) <==> StableSort(a) == StableSort(b)
  {
    if a != [] && b != [] {
      RoundTrip(a);
      RoundTrip(b);
    } else if a != [] {
      assert Encode(a)[0] == 0x41;
    } else if b != [] {
      assert Encode(b)[0] == 0x41;
    }
  }

  // --------------------------------------------------------------- prefixes

  function LastTs(events: seq<AerEvent>, prev: U64): U64 {
    if events == [] then prev else events[|events| - 1].ts
  }

  lemma {:induction false} BodyConcat(a: seq<AerEvent>, b: seq<AerEvent>, prev: U64)
    ensures Body(a + b, prev) == Body(a, prev) + Body(b, LastTs(a, prev))
  {
    hide EventBytes;
    if a == [] {
      assert a + b == b;
    } else {
      BodyConcat(a[1..], b, a[0].ts);
      assert (a + b)[1..] == a[1..] + b;
      hide Body;
      BodyCons(a, prev);
      BodyCons(a + b, prev);
      assert LastTs(a, prev) == LastTs(a[1..], a[0].ts);
      ConcatAssoc(EventBytes(a[0], prev), Body(a[1..], a[0].ts), Body(b, LastTs(a, prev)));
    }
  }

  lemma BodyPrefix(events: seq<AerEvent>, prev: U64, m: nat)
    requires m <= |events|
    ensures Body(events[..m], prev) <= Body(events, prev)
  {
    assert events == events[..m] + events[m..];
    BodyConcat(events[..m], events[m..], prev);
  }

  lemma CutPastFirst(v: U64, rest: seq<Byte>, k: nat)
    requires |Varint(v)| <= k <= |Varint(v) + rest|
    ensures (Varint(v) + rest)[..k] == Varint(v) + rest[..k - |Varint(v)|]
    ensures FirstVarint((Varint(v) + rest)[..k]) == Ok((v, |Varint(v)|))
    ensures (Varint(v) + rest)[..k][|Varint(v)|..] == rest[..k - |Varint(v)|]
  {
    hide Varint, FirstVarint;
    VarintRoundTrip(v, rest[..k - |Varint(v)|]);
    assert (Varint(v) + rest)[..k] == Varint(v) + rest[..k - |Varint(v)|];
  }

  lemma CutInFirst(v: U64, rest: seq<Byte>, k: nat)
    requires k < |Varint(v)|
    ensures FirstVarint((Varint(v) + rest)[..k]) == Err(Truncated)
  {
    VarintCut(v, k);
    assert (Varint(v) + rest)[..k] == Varint(v)[..k];
  }

  lemma DecodeEventError(bytes: seq<Byte>, prev: U64, d: nat, a: nat)
    requires 0 <= d <= d + a <= |bytes|
    requires d > 0 ==> FirstVarint(bytes).Ok? && FirstVarint(bytes).value.1 == d
    requires a > 0 ==> d > 0 && FirstVarint(bytes[d..]).Ok? && FirstVarint(bytes[d..]).value.1 == a
    ensures d == 0 && FirstVarint(bytes) == Err(Truncated) ==> DecodeEvent(bytes, prev) == Err(Truncated)
    ensures d > 0 && a == 0 && FirstVarint(bytes[d..]) == Err(Truncated) ==>
              DecodeEvent(bytes, prev) == Err(Truncated)
    ensures a > 0 && FirstVarint(bytes[d + a..]) == Err(Truncated) ==> DecodeEvent(bytes, prev) == Err(Truncated)
  {
    hide FirstVarint;
  }

  /** An event whose bytes are cut short is reported as truncated. */
  lemma EventCut(e: AerEvent, prev: U64, k: nat)
    requires 0 < k < |EventBytes(e, prev)|
    ensures DecodeEvent(EventBytes(e, prev)[..k], prev) == Err(Truncated)
  {
    hide Varint, FirstVarint, DecodeEvent;
    var delta := SatSub(e.ts, prev);
    var d, a, v := Varint(delta), Varint(e.addr), Varint(e.value);
    assert EventBytes(e, prev) == d + (a + v);
    var cut := (d + (a + v))[..k];
    if k < |d| {
      CutInFirst(delta, a + v, k);
      DecodeEventError(cut, prev, 0, 0);
    } else {
      CutPastFirst(delta, a + v, k);
      var k1 := k - |d|;
      assert cut[|d|..] == (a + v)[..k1];
      if k1 < |a| {
        CutInFirst(e.addr, v, k1);
        DecodeEventError(cut, prev, |d|, 0);
      } else {
        CutPastFirst(e.addr, v, k1);
        assert cut[|d| + |a|..] == cut[|d|..][|a|..] == v[..k1 - |a|];
        VarintCut(e.value, k1 - |a|);
        DecodeEventError(cut, prev, |d|, |a|);
      }
    }
  }

  /** `k` falls between two events of the encoded list. */
  predicate AtBoundary(events: seq<AerEvent>, prev: U64, k: nat) {
    exists m :: 0 <= m <= |events| && k == |Body(events[..m], prev)|
  }

  lemma BoundaryTail(events: seq<AerEvent>, prev: U64, j: nat)
    requires events != []
    ensures AtBoundary(events[1..], events[0].ts, j) ==>
              AtBoundary(events, prev, |EventBytes(events[0], prev)| + j)
  {
    hide EventBytes;
    var e := events[0];
    if AtBoundary(events[1..], e.ts, j) {
      var m :| 0 <= m <= |events[1..]| && j == |Body(events[1..][..m], e.ts)|;
      assert events[..m + 1] == [e] + events[1..][..m];
      assert Body(events[..m + 1], prev) == EventBytes(e, prev) + Body(events[1..][..m], e.ts);
    }
  }

  lemma {:induction false} BodyCut(events: seq<AerEvent>, prev: U64, k: nat)
    requires SortedByTs(events) && NoneBefore(events, prev)
    requires k <= |Body(events, prev)| && !AtBoundary(events, prev, k)
    ensures DecodeBody(Body(events, prev)[..k], prev) == Err(Truncated)
    decreases |events|
  {
    hide EventBytes, DecodeEvent;
    assert k != |Body(events[..0], prev)|;
    var e, rest := events[0], Body(events[1..], events[0].ts);
    var head := EventBytes(e, prev);
    var cut := Body(events, prev)[..k];
    if k < |head| {
      EventCut(e, prev, k);
      assert cut == head[..k];
    } else {
      var j := k - |head|;
      EventRoundTrip(e, prev, rest[..j]);
      assert cut == head + rest[..j];
      assert cut[|head|..] == rest[..j];
      BoundaryTail(events, prev, j);
      BodyCut(events[1..], e.ts, j);
    }
  }

  /** Where the encoding of the first `m` sorted events ends. */
  function Boundary(events: seq<AerEvent>, m: nat): nat
    requires events != [] && m <= |events|
  {
    12 + |Body(StableSort(events)[..m], StableSort(events)[0].ts)|
  }

  lemma EncodeCut(events: seq<AerEvent>, k: nat)
    requires events != [] && 12 <= k <= |Encode(events)|
    ensures var sorted := StableSort(events);
            && SortedByTs(sorted) && NoneBefore(sorted, sorted[0].ts)
            && k - 12 <= |Body(sorted, sorted[0].ts)|
            && Decode(Encode(events)[..k]) == DecodeBody(Body(sorted, sorted[0].ts)[..k - 12], sorted[0].ts)
  {
    var sorted := StableSort(events);
    var base := sorted[0].ts;
    StableSortSorts(events, 0);
    HeaderRoundTrip(base, Body(sorted, base));
    HeaderRoundTrip(base, Body(sorted, base)[..k - 12]);
    assert Encode(events)[..k] == MAGIC + ToLe(base, 8) + Body(sorted, base)[..k - 12];
  }

  lemma SortedPrefix(s: seq<AerEvent>, m: nat, prev: U64)
    requires m <= |s| && SortedByTs(s) && NoneBefore(s, prev)
    ensures SortedByTs(s[..m]) && NoneBefore(s[..m], prev)
  {
  }

  /** A prefix that ends between two events decodes to those events. */
  lemma PrefixAtBoundary(events: seq<AerEvent>, m: nat)
    requires events != [] && m <= |events|
    ensures 12 <= Boundary(events, m) <= |Encode(events)|
    ensures Decode(Encode(events)[..Boundary(events, m)]) == Ok(StableSort(events)[..m])
  {
    var sorted := StableSort(events);
    var base := sorted[0].ts;
    var k := Boundary(events, m);
    BodyPrefix(sorted, base, m);
    HeaderRoundTrip(base, Body(sorted, base));
    assert k <= |Encode(events)|;
    hide *;
    EncodeCut(events, k);
    assert Body(sorted, base)[..k - 12] == Body(sorted[..m], base);
    SortedPrefix(sorted, m, base);
    BodyRoundTrip(sorted[..m], base);
  }

  /** A prefix that ends anywhere else is reported as truncated: no overflow, no wrong magic, no invented event. */
  lemma PrefixElsewhere(events: seq<AerEvent>, k: nat)
    requires events != [] && k <= |Encode(events)|
    requires forall m :: 0 <= m <= |events| ==> k != Boundary(events, m)
    ensures Decode(Encode(events)[..k]) == Err(Truncated)
  {
    if k >= 12 {
      var sorted := StableSort(events);
      hide DecodeBody, Decode, Body, Encode, StableSort;
      EncodeCut(events, k);
      forall m | 0 <= m <= |sorted|
        ensures k - 12 != |Body(sorted[..m], sorted[0].ts)|
      {
        assert k != Boundary(events, m);
      }
      BodyCut(sorted, sorted[0].ts, k - 12);
    }
  }

  // ------------------------------------------------ decoding first, any bytes

  lemma DecodedNotBefore(bytes: seq<Byte>, prev: U64)
    ensures DecodeEvent(bytes, prev).Ok? ==> prev <= DecodeEvent(bytes, prev).value.0.ts
  {
    hide FirstVarint;
  }

  lemma SortedCons(e: AerEvent, rest: seq<AerEvent>, prev: U64)
    requires prev <= e.ts && SortedByTs(rest) && NoneBefore(rest, e.ts)
    ensures SortedByTs([e] + rest) && NoneBefore([e] + rest, prev)
  {
  }

  lemma {:induction false} DecodedIsSorted(bytes: seq<Byte>, prev: U64)
    ensures DecodeBody(bytes, prev).Ok? ==>
              SortedByTs(DecodeBody(bytes, prev).value) && NoneBefore(DecodeBody(bytes, prev).value, prev)
    decreases |bytes|
  {
    if bytes != [] && DecodeBody(bytes, prev).Ok? {
      hide DecodeEvent, SortedByTs, NoneBefore;
      DecodedNotBefore(bytes, prev);
      var first := DecodeEvent(bytes, prev).value;
      DecodedIsSorted(bytes[first.1..], first.0.ts);
      SortedCons(first.0, DecodeBody(bytes[first.1..], first.0.ts).value, prev);
    }
  }

  /** Whatever bytes were accepted, hand-made ones included, the events come out in time order and survive re-encoding. */
  lemma DecodeThenReencode(bytes: seq<Byte>)
    requires Decode(bytes).Ok? && Decode(bytes).value != []
    ensures SortedByTs(Decode(bytes).value)
    ensures Decode(Encode(Decode(bytes).value)) == Decode(bytes)
  {
    DecodedIsSorted(bytes[12..], BaseTs(bytes));
    var events := Decode(bytes).value;
    StableSortOfSorted(events);
    RoundTrip(events);
  }

  // ------------------------------------------------------------- the bytes

  /** What is left of a number after `i` groups of seven bits. */
  function Shifted(v: nat, i: nat): nat {
    if i == 0 then v else Shifted(v / 128, i - 1)
  }

  /** Byte `i` of a varint holds bits `7 * i` upwards, and its top bit says that another byte follows. */
  lemma {:induction false} VarintByteAt(v: nat, i: nat)
    requires i < |Varint(v)|
    ensures Varint(v)[i] == Shifted(v, i) % 128 + if i + 1 < |Varint(v)| then 128 else 0
    decreases i
  {
    if i > 0 {
      VarintByteAt(v / 128, i - 1);
    }
  }

  /** The first twelve bytes: "AER1", then the earliest timestamp with its lowest byte first. */
  ghost predicate HasHeader(bytes: seq<Byte>, base: U64) {
    var high := base / 0x1_0000_0000;
    && |bytes| >= 12 && bytes[0] == 65 && bytes[1] == 69 && bytes[2] == 82 && bytes[3] == 49
    && bytes[4] == base % 256 && bytes[5] == base / 256 % 256
    && bytes[6] == base / 256 / 256 % 256 && bytes[7] == base / 256 / 256 / 256 % 256
    && bytes[8] == high % 256 && bytes[9] == high / 256 % 256
    && bytes[10] == high / 256 / 256 % 256 && bytes[11] == high / 256 / 256 / 256 % 256
  }

  lemma LeUnfold(v: nat, n: nat)
    requires n > 0
    ensures ToLe(v, n) == [v % 256] + ToLe(v / 256, n - 1)
  {
  }

  lemma LeBytes(v: U64)
    ensures var s := ToLe(v, 8);
            && s[0] == v % 256 && s[1] == v / 256 % 256 && s[2] == v / 256 / 256 % 256 && s[3] == v / 256 / 256 / 256 % 256
            && s[4] == v / 0x1_0000_0000 % 256 && s[5] == v / 0x1_0000_0000 / 256 % 256
            && s[6] == v / 0x1_0000_0000 / 256 / 256 % 256 && s[7] == v / 0x1_0000_0000 / 256 / 256 / 256 % 256
  {
    var w := v / 256 / 256 / 256 / 256;
    assert w == v / 0x1_0000_0000;
    LeUnfold(v, 8);
    LeUnfold(v / 256, 7);
    LeUnfold(v / 256 / 256, 6);
    LeUnfold(v / 256 / 256 / 256, 5);
    LeUnfold(w, 4);
    LeUnfold(w / 256, 3);
    LeUnfold(w / 256 / 256, 2);
    LeUnfold(w / 256 / 256 / 256, 1);
    hide ToLe;
  }

  lemma HeaderSlots(s: seq<Byte>, body: seq<Byte>)
    requires |s| == 8
    ensures var bytes := MAGIC + s + body;
            && |bytes| >= 12 && bytes[0] == 65 && bytes[1] == 69 && bytes[2] == 82 && bytes[3] == 49
            && bytes[4] == s[0] && bytes[5] == s[1] && bytes[6] == s[2] && bytes[7] == s[3]
            && bytes[8] == s[4] && bytes[9] == s[5] && bytes[10] == s[6] && bytes[11] == s[7]
  {
  }

  lemma HeaderBytes(base: U64, body: seq<Byte>)
    ensures HasHeader(MAGIC + ToLe(base, 8) + body, base)
  {
    LeBytes(base);
    hide ToLe;
    HeaderSlots(ToLe(base, 8), body);
  }

  /** Every encoding begins so, with the earliest timestamp of its events. */
  lemma EncodedHeader(events: seq<AerEvent>) returns (base: U64)
    requires events != []
    ensures (forall e :: e in events ==> base <= e.ts) && (exists e :: e in events && e.ts == base)
    ensures HasHeader(Encode(events), base)
  {
    var sorted := StableSort(events);
    base := sorted[0].ts;
    StableSortSorts(events, 0);
    Lists.SortMembers(Earlier, events);
    HeaderBytes(base, Body(sorted, base));
    hide Body, ToLe, HasHeader;
    assert sorted[0] in Lists.Members(sorted);
    forall e | e in events
      ensures base <= e.ts
    {
      assert e in Lists.Members(sorted);
    }
  }

  /** An event is three groups: the time since the one before, the address, the value. */
  lemma EventIsThreeGroups(e: AerEvent, prev: U64) returns (d: seq<Byte>, a: seq<Byte>, v: seq<Byte>)
    ensures EventBytes(e, prev) == d + a + v && IsGroup(d) && IsGroup(a) && IsGroup(v)
    ensures Leb(d) == (if e.ts >= prev then e.ts - prev else 0) && Leb(a) == e.addr && Leb(v) == e.value
  {
    d, a, v := Varint(SatSub(e.ts, prev)), Varint(e.addr), Varint(e.value);
    VarintIsGroup(SatSub(e.ts, prev));
    VarintIsGroup(e.addr);
    VarintIsGroup(e.value);
    hide Varint, Leb, IsGroup;
  }

  /** When reading a varint fails, and how. */
  lemma VarintFailsIff(bytes: seq<Byte>)
    ensures FirstVarint(bytes) == Err(VarintOverflow) <==> |bytes| >= 10 && forall i :: 0 <= i < 10 ==> bytes[i] >= 128
    ensures FirstVarint(bytes) == Err(Truncated) <==> |bytes| < 10 && forall i :: 0 <= i < |bytes| ==> bytes[i] >= 128
    ensures FirstVarint(bytes) != Err(InvalidMagic)
  {
    var n := Continuations(bytes);
    hide Leb, Continuations;
    if |bytes| >= 10 && forall i :: 0 <= i < 10 ==> bytes[i] >= 128 {
      ContinuationsAtLeast(bytes, 10);
    }
    if forall i :: 0 <= i < |bytes| ==> bytes[i] >= 128 {
      ContinuationsAtLeast(bytes, |bytes|);
    }
  }

  lemma GroupReads(g: seq<Byte>, rest: seq<Byte>)
    requires IsGroup(g) && |g| <= 10
    ensures FirstVarint(g + rest) == Ok((Low64(Leb(g)), |g|))
  {
    hide Leb, Continuations;
    ContinuationsAt(g + rest, |g| - 1);
    assert (g + rest)[..|g|] == g;
  }

  lemma DecodeEventOf(bytes: seq<Byte>, prev: U64, d: (U64, nat), a: (U64, nat), v: (U64, nat))
    requires FirstVarint(bytes) == Ok(d)
    requires FirstVarint(bytes[d.1..]) == Ok(a)
    requires d.1 + a.1 <= |bytes| && FirstVarint(bytes[d.1 + a.1..]) == Ok(v)
    ensures DecodeEvent(bytes, prev) ==
            Ok((AerEvent(SatAdd(prev, d.0), a.0 % 0x1_0000_0000, v.0 % 0x100), d.1 + a.1 + v.1))
  {
    hide FirstVarint;
  }

  lemma ModWord(x: nat, k: nat)
    ensures (x + k * 0x1_0000_0000) % 0x1_0000_0000 == x % 0x1_0000_0000
    ensures (x + k * 0x100) % 0x100 == x % 0x100
  {
  }

  lemma LowBits(n: nat)
    ensures Low64(n) % 0x1_0000_0000 == n % 0x1_0000_0000 && Low64(n) % 0x100 == n % 0x100
  {
    var q := n / 0x1_0000_0000_0000_0000;
    assert n == Low64(n) + q * 0x1_0000_0000_0000_0000;
    var r := Low64(n);
    hide Low64;
    ModWord(r, q * 0x1_0000_0000);
    ModWord(r, q * 0x100_0000_0000_0000);
    assert q * 0x1_0000_0000 * 0x1_0000_0000 == q * 0x1_0000_0000_0000_0000;
    assert q * 0x100_0000_0000_0000 * 0x100 == q * 0x1_0000_0000_0000_0000;
  }

  lemma DropFirst(a: seq<Byte>, b: seq<Byte>, n: nat)
    requires n <= |b|
    ensures |a + b| == |a| + |b| && (a + b)[|a|..] == b && (a + b)[|a| + n..] == b[n..]
  {
  }

  lemma ThreeGroupsRead(d: seq<Byte>, a: seq<Byte>, v: seq<Byte>, rest: seq<Byte>, prev: U64)
    requires IsGroup(d) && IsGroup(a) && IsGroup(v) && |d| <= 10 && |a| <= 10 && |v| <= 10
    ensures DecodeEvent(d + (a + (v + rest)), prev) ==
            Ok((AerEvent(SatAdd(prev, Low64(Leb(d))), Low64(Leb(a)) % 0x1_0000_0000, Low64(Leb(v)) % 0x100),
                |d| + |a| + |v|))
  {
    hide *;
    var two := v + rest;
    var one := a + two;
    GroupReads(v, rest);
    GroupReads(a, two);
    GroupReads(d, one);
    DropFirst(a, two, 0);
    DropFirst(d, one, |a|);
    DecodeEventOf(d + one, prev, (Low64(Leb(d)), |d|), (Low64(Leb(a)), |a|), (Low64(Leb(v)), |v|));
  }

  /**
   * Any three groups of at most ten bytes, hand-made ones included, read as an event: the time saturates, address
   * and value keep their low bits.
   */
  lemma AnyGroupsRead(d: seq<Byte>, a: seq<Byte>, v: seq<Byte>, rest: seq<Byte>, prev: U64)
    requires IsGroup(d) && IsGroup(a) && IsGroup(v) && |d| <= 10 && |a| <= 10 && |v| <= 10
    ensures var r := DecodeEvent(d + a + v + rest, prev);
            && r.Ok? && r.value.1 == |d| + |a| + |v|
            && r.value.0.ts == Min(prev + Leb(d) % 0x1_0000_0000_0000_0000, 0xFFFF_FFFF_FFFF_FFFF)
            && r.value.0.addr == Leb(a) % 0x1_0000_0000 && r.value.0.value == Leb(v) % 0x100
  {
    hide Leb, IsGroup, DecodeEvent;
    assert d + a + v + rest == d + (a + (v + rest));
    ThreeGroupsRead(d, a, v, rest, prev);
    LowBits(Leb(a));
    LowBits(Leb(v));
  }
}
