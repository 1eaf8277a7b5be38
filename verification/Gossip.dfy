/** Discovery bookkeeping: signatures, the observed-peer ring, the announcement round. */
module Gossip {
  import opened Lists
  import opened Machine
  import Text

  // ------------------------------------------------------------- hex and equality

  /** The hexadecimal digit of a number below sixteen, as an ASCII byte. */
  function HexDigit(n: bv8): bv8 {
    if n < 10 then 0x30 + n else 0x57 + n
  }

  function Hex(bytes: seq<bv8>): seq<bv8> {
    if bytes == [] then []
    else [HexDigit(bytes[0] >> 4), HexDigit(bytes[0] & 0x0f)] + Hex(bytes[1..])
  }

  lemma HexStep(out: seq<bv8>, bytes: seq<bv8>, i: nat)
    requires i < |bytes|
    ensures out + Hex(bytes[i..]) == out + [HexDigit(bytes[i] >> 4), HexDigit(bytes[i] & 0x0f)] + Hex(bytes[i + 1..])
  {
    assert bytes[i..][1..] == bytes[i + 1..];
    hide HexDigit;
    var digits := [HexDigit(bytes[i] >> 4), HexDigit(bytes[i] & 0x0f)];
    assert Hex(bytes[i..]) == digits + Hex(bytes[i + 1..]);
    hide Hex;
    assert out + (digits + Hex(bytes[i + 1..])) == (out + digits) + Hex(bytes[i + 1..]);
  }

  method ToHex(bytes: seq<bv8>) returns (out: seq<bv8>)
    ensures out == Hex(bytes)
  {
    out := [];
    assert bytes[0..] == bytes && Hex([]) == [];
    hide Hex, HexDigit;
    for i := 0 to |bytes|
      invariant out + Hex(bytes[i..]) == Hex(bytes)
    {
      var b := bytes[i];
      HexStep(out, bytes, i);
      out := out + [HexDigit(b >> 4), HexDigit(b & 0x0f)];
    }
    assert bytes[|bytes|..] == [];
  }

  predicate IsHexDigit(c: bv8) {
    0x30 <= c <= 0x39 || 0x61 <= c <= 0x66
  }

  lemma HexDigitOfNibble(b: bv8)
    ensures IsHexDigit(HexDigit(b >> 4)) && IsHexDigit(HexDigit(b & 0x0f))
  {
    assert b >> 4 < 16 && b & 0x0f < 16;
  }

  lemma NibblesFixByte(a: bv8, b: bv8)
    requires HexDigit(a >> 4) == HexDigit(b >> 4) && HexDigit(a & 0x0f) == HexDigit(b & 0x0f)
    ensures a == b
  {
    assert a >> 4 < 16 && b >> 4 < 16 && a & 0x0f < 16 && b & 0x0f < 16;
    assert a == ((a >> 4) << 4) | (a & 0x0f);
    assert b == ((b >> 4) << 4) | (b & 0x0f);
  }

  /** Two lower-case hexadecimal digits a byte: 64 of them for a 32-byte digest. */
  lemma {:induction false} HexShape(bytes: seq<bv8>)
    ensures |Hex(bytes)| == 2 * |bytes|
    ensures forall i :: 0 <= i < |Hex(bytes)| ==> IsHexDigit(Hex(bytes)[i])
  {
    if bytes != [] {
      HexShape(bytes[1..]);
      HexDigitOfNibble(bytes[0]);
    }
  }

  lemma HexParts(a: seq<bv8>)
    requires a != []
    ensures |Hex(a)| >= 2 && Hex(a)[2..] == Hex(a[1..])
    ensures Hex(a)[0] == HexDigit(a[0] >> 4) && Hex(a)[1] == HexDigit(a[0] & 0x0f)
  {
  }

  function HexValue(c: bv8): nat
    requires IsHexDigit(c)
  {
    if c <= 0x39 then c as nat - 48 else c as nat - 87
  }

  lemma HexDigitValue(n: bv8)
    requires n < 16
    ensures IsHexDigit(HexDigit(n)) && HexValue(HexDigit(n)) == n as nat
  {
  }

  lemma NibbleValues(b: bv8)
    ensures b >> 4 < 16 && b & 0x0f < 16 && b as nat == 16 * ((b >> 4) as nat) + (b & 0x0f) as nat
  {
    assert b == 16 * (b >> 4) + (b & 0x0f);
  }

  /** Read as numbers the digits `2i` and `2i + 1` are the high and the low half of byte `i`. */
  lemma {:induction false} HexReadsBack(bytes: seq<bv8>, i: nat)
    requires i < |bytes|
    ensures 2 * i + 1 < |Hex(bytes)| && IsHexDigit(Hex(bytes)[2 * i]) && IsHexDigit(Hex(bytes)[2 * i + 1])
    ensures 16 * HexValue(Hex(bytes)[2 * i]) + HexValue(Hex(bytes)[2 * i + 1]) == bytes[i] as nat
  {
    HexParts(bytes);
    hide Hex, HexDigit, HexValue, IsHexDigit;
    if i == 0 {
      NibbleValues(bytes[0]);
      HexDigitValue(bytes[0] >> 4);
      HexDigitValue(bytes[0] & 0x0f);
    } else {
      HexReadsBack(bytes[1..], i - 1);
    }
  }

  /** Different digests never share their hexadecimal form. */
  lemma {:induction false} HexIsInjective(a: seq<bv8>, b: seq<bv8>)
    ensures Hex(a) == Hex(b) <==> a == b
  {
    if Hex(a) == Hex(b) {
      HexShape(a);
      HexShape(b);
      if a != [] {
        HexParts(a);
        HexParts(b);
        hide Hex, HexDigit;
        NibblesFixByte(a[0], b[0]);
        HexIsInjective(a[1..], b[1..]);
        assert a == [a[0]] + a[1..] && b == [b[0]] + b[1..];
      }
    }
  }

  lemma DifferenceBit(diff: bv8, x: bv8, y: bv8)
    ensures diff | (x ^ y) == 0 <==> diff == 0 && x == y
  {
  }

  /** The comparison that looks at every byte returns true exactly on equal strings. */
  method NormalizeEq(a: seq<bv8>, b: seq<bv8>) returns (equal: bool)
    ensures equal <==> a == b
  {
    if |a| != |b| {
      return false;
    }
    var diff: bv8 := 0;
    for i := 0 to |a|
      invariant diff == 0 <==> a[..i] == b[..i]
    {
      DifferenceBit(diff, a[i], b[i]);
      assert a[..i + 1] == a[..i] + [a[i]] && b[..i + 1] == b[..i] + [b[i]];
      diff := diff | (a[i] ^ b[i]);
    }
    assert a[..|a|] == a && b[..|b|] == b;
    return diff == 0;
  }

  // ------------------------------------------------------------- signatures

  type Key = seq<bv8>

  /** Advertisements enter a signature only through their digest, so they stay opaque here. */
  datatype Advertisement = Advertisement(text: string)

  datatype Capabilities = Capabilities(os: string, arch: string, cpuCores: nat, tags: seq<string>)

  /** The hashes: a keyed one for the payload, and the digest of an advertisement, empty if it cannot be written. */
  datatype Hashes = Hashes(keyed: (Key, string) -> seq<bv8>, digest: Advertisement -> string)

  datatype Announcement = Announcement(
    agentId: string, agentVersion: Option<string>, tsMs: U64, addr: Option<string>, statusAddr: Option<string>,
    ban: Option<Advertisement>, fault: Option<Advertisement>, capabilities: Capabilities, signature: seq<bv8>,
    isCoordinator: Option<bool>, coordinatorEpoch: Option<U64>, score: Option<U64>, probe: Option<Advertisement>)

  datatype SigningRole = SigningRole(isCoordinator: bool, epoch: U64, score: U64, probe: Option<Advertisement>)

  function OrEmpty(s: Option<string>): string {
    if s.Some? then s.value else ""
  }

  function DigestOf(h: Hashes, a: Option<Advertisement>): string {
    if a.Some? then h.digest(a.value) else ""
  }

  /** The signed fields after the id and the version, the same in both payload formats. */
  function CommonParts(h: Hashes, tsMs: U64, addr: Option<string>, c: Capabilities, role: SigningRole,
                       statusAddr: Option<string>, ban: Option<Advertisement>, fault: Option<Advertisement>): seq<string> {
    [Text.Decimal(tsMs), OrEmpty(addr), OrEmpty(statusAddr), c.os, c.arch, Text.Decimal(c.cpuCores), Text.Join(c.tags, ","),
     if role.isCoordinator then "true" else "false", Text.Decimal(role.epoch), Text.Decimal(role.score),
     DigestOf(h, ban), DigestOf(h, fault), DigestOf(h, role.probe)]
  }

  function Payload(agentId: string, version: string, common: seq<string>): string {
    Text.Join([agentId, version] + common, "|")
  }

  function LegacyPayload(agentId: string, common: seq<string>): string {
    Text.Join([agentId] + common, "|")
  }

  function BuildAnnouncement(h: Hashes, key: Key, agentId: string, version: string, tsMs: U64, addr: Option<string>,
                             c: Capabilities, role: SigningRole, statusAddr: Option<string>,
                             ban: Option<Advertisement>, fault: Option<Advertisement>): Announcement {
    var common := CommonParts(h, tsMs, addr, c, role, statusAddr, ban, fault);
    Announcement(agentId, Some(version), tsMs, addr, statusAddr, ban, fault, c,
                 Hex(h.keyed(key, Payload(agentId, version, common))),
                 Some(role.isCoordinator), Some(role.epoch), Some(role.score), role.probe)
  }

  /** The role that a receiver reads out of an announcement. */
  function RoleOf(a: Announcement): SigningRole {
    SigningRole(a.isCoordinator.Some? && a.isCoordinator.value,
                if a.coordinatorEpoch.Some? then a.coordinatorEpoch.value else 0,
                if a.score.Some? then a.score.value else 0, a.probe)
  }

  predicate Versioned(a: Announcement) {
    a.agentVersion.Some? && !Text.Blank(a.agentVersion.value)
  }

  function CommonOf(h: Hashes, a: Announcement): seq<string> {
    CommonParts(h, a.tsMs, a.addr, a.capabilities, RoleOf(a), a.statusAddr, a.ban, a.fault)
  }

  /** A non-blank version selects the current payload, anything else the legacy one. */
  function SignedText(h: Hashes, a: Announcement): string {
    if Versioned(a) then Payload(a.agentId, a.agentVersion.value, CommonOf(h, a))
    else LegacyPayload(a.agentId, CommonOf(h, a))
  }

  /** The texts that an announcement's signature covers besides id and version, each from its own field. */
  function FieldTexts(h: Hashes, a: Announcement): seq<string> {
    [Text.Decimal(a.tsMs),
     if a.addr.Some? then a.addr.value else "",
     if a.statusAddr.Some? then a.statusAddr.value else "",
     a.capabilities.os,
     a.capabilities.arch,
     Text.Decimal(a.capabilities.cpuCores),
     Text.Join(a.capabilities.tags, ","),
     if a.isCoordinator == Some(true) then "true" else "false",
     Text.Decimal(if a.coordinatorEpoch.Some? then a.coordinatorEpoch.value else 0),
     Text.Decimal(if a.score.Some? then a.score.value else 0),
     if a.ban.Some? then h.digest(a.ban.value) else "",
     if a.fault.Some? then h.digest(a.fault.value) else "",
     if a.probe.Some? then h.digest(a.probe.value) else ""]
  }

  /** A versioned announcement is checked against id, version and the other texts in their order, any other without version. */
  lemma SignedTextIs(h: Hashes, a: Announcement)
    ensures SignedText(h, a) ==
            if a.agentVersion.Some? && Text.Trim(a.agentVersion.value) != ""
            then Text.Join([a.agentId, a.agentVersion.value] + FieldTexts(h, a), "|")
            else Text.Join([a.agentId] + FieldTexts(h, a), "|")
  {
    hide Text.Join, Text.Decimal, Text.Trim;
    assert CommonOf(h, a) == FieldTexts(h, a);
  }

  function ExpectedSignature(h: Hashes, key: Key, a: Announcement): seq<bv8> {
    Hex(h.keyed(key, SignedText(h, a)))
  }

  method ValidSignature(h: Hashes, key: Key, a: Announcement) returns (ok: bool)
    ensures ok <==> a.signature == Hex(h.keyed(key, SignedText(h, a)))
  {
    var common := CommonParts(h, a.tsMs, a.addr, a.capabilities, RoleOf(a), a.statusAddr, a.ban, a.fault);
    var expected;
    if a.agentVersion.Some? && !Text.Blank(a.agentVersion.value) {
      expected := ToHex(h.keyed(key, Payload(a.agentId, a.agentVersion.value, common)));
    } else {
      expected := ToHex(h.keyed(key, LegacyPayload(a.agentId, common)));
    }
    ok := NormalizeEq(a.signature, expected);
  }

  lemma JoinCons(part: string, rest: seq<string>)
    requires rest != []
    ensures Text.Join([part] + rest, "|") == part + "|" + Text.Join(rest, "|")
  {
    assert ([part] + rest)[1..] == rest;
  }

  lemma PayloadsDiffer(agentId: string, version: string, common: seq<string>)
    requires common != []
    ensures Payload(agentId, version, common) != LegacyPayload(agentId, common)
  {
    assert [agentId, version] + common == [agentId] + ([version] + common);
    JoinCons(agentId, [version] + common);
    JoinCons(version, common);
    JoinCons(agentId, common);
    assert |Payload(agentId, version, common)| == |LegacyPayload(agentId, common)| + |version| + 1;
  }

  /**
   * An agent's own announcement is accepted under the same key for every non-blank version; for a blank one it is
   * checked against the legacy payload, a different string, so that only a collision of the keyed hash lets it in.
   */
  lemma BuiltIsAcceptedIff(h: Hashes, key: Key, agentId: string, version: string, tsMs: U64, addr: Option<string>,
                           c: Capabilities, role: SigningRole, statusAddr: Option<string>,
                           ban: Option<Advertisement>, fault: Option<Advertisement>)
    ensures var a := BuildAnnouncement(h, key, agentId, version, tsMs, addr, c, role, statusAddr, ban, fault);
            var common := CommonParts(h, tsMs, addr, c, role, statusAddr, ban, fault);
            && Payload(agentId, version, common) != LegacyPayload(agentId, common)
            && (a.signature == ExpectedSignature(h, key, a) <==>
                  !Text.Blank(version)
                  || h.keyed(key, Payload(agentId, version, common)) == h.keyed(key, LegacyPayload(agentId, common)))
  {
    hide Hex, Payload, LegacyPayload, Text.Blank;
    var common := CommonParts(h, tsMs, addr, c, role, statusAddr, ban, fault);
    PayloadsDiffer(agentId, version, common);
    HexIsInjective(h.keyed(key, Payload(agentId, version, common)), h.keyed(key, LegacyPayload(agentId, common)));
  }

  // ------------------------------------------------------------- observed peers

  const MAX_OBSERVED_PEERS: nat := 128

  /** The last `n` entries of a list, or all of it. */
  function Last(s: seq<string>, n: nat): seq<string> {
    if |s| <= n then s else s[|s| - n..]
  }

  /** The peers admitted so far: one is admitted when it is not among the last 128 admitted. */
  function Admitted(received: seq<string>): seq<string> {
    if received == [] then []
    else
      var before, peer := Admitted(received[..|received| - 1]), received[|received| - 1];
      if peer in Last(before, MAX_OBSERVED_PEERS) then before else before + [peer]
  }

  /** `peers` holds exactly the entries of `order`, which has no duplicates. */
  ghost predicate Indexes(peers: set<string>, order: seq<string>) {
    NoRepeats(order) && peers == Members(order)
  }

  lemma IndexFacts(peers: set<string>, order: seq<string>)
    requires Indexes(peers, order)
    ensures forall p :: p in peers <==> p in order
  {
  }

  lemma IndexDrop(peers: set<string>, order: seq<string>)
    requires Indexes(peers, order) && order != []
    ensures Indexes(peers - {order[0]}, order[1..])
  {
    assert order == [order[0]] + order[1..];
  }

  lemma IndexAdd(peers: set<string>, order: seq<string>, peer: string)
    requires Indexes(peers, order) && peer !in peers
    ensures Indexes(peers + {peer}, order + [peer])
  {
  }

  lemma AdmittedStep(received: seq<string>, peer: string)
    ensures var before, after := Admitted(received), Admitted(received + [peer]);
            var kept := Last(before, MAX_OBSERVED_PEERS);
            |kept| <= MAX_OBSERVED_PEERS && Last(after, MAX_OBSERVED_PEERS) ==
              if peer in kept then kept
              else (if |kept| < MAX_OBSERVED_PEERS then kept else kept[1..]) + [peer]
  {
    assert (received + [peer])[..|received|] == received;
  }

  class ObservedPeers {
    var peers: set<string>
    var order: seq<string>
    ghost var received: seq<string>

    /** The queue is the tail of the admissions, and the set its index. */
    ghost predicate Valid()
      reads this
    {
      order == Last(Admitted(received), MAX_OBSERVED_PEERS) && Indexes(peers, order)
    }

    constructor ()
      ensures Valid() && received == []
    {
      peers, order, received := {}, [], [];
      assert Indexes({}, []);
    }

    method Observe(peer: string)
      requires Valid()
      modifies this
      ensures Valid() && received == old(received) + [peer]
      ensures |order| <= MAX_OBSERVED_PEERS
      ensures order == if peer in old(order) then old(order)
                       else (if |old(order)| < MAX_OBSERVED_PEERS then old(order) else old(order)[1..]) + [peer]
    {
      hide Last, Admitted, Indexes;
      AdmittedStep(received, peer);
      IndexFacts(peers, order);
      if peer !in peers {
        if |order| >= MAX_OBSERVED_PEERS {
          var evicted := order[0];
          IndexDrop(peers, order);
          order := order[1..];
          peers := peers - {evicted};
        }
        IndexAdd(peers, order, peer);
        peers := peers + {peer};
        order := order + [peer];
      }
      received := received + [peer];
    }
  }

  /** After any sequence of peers the queue has no duplicates, and eviction was oldest first. */
  lemma {:induction false} QueueHasNoRepeats(received: seq<string>)
    ensures NoRepeats(Last(Admitted(received), MAX_OBSERVED_PEERS))
  {
    if received != [] {
      var front, peer := received[..|received| - 1], received[|received| - 1];
      QueueHasNoRepeats(front);
      AdmittedStep(front, peer);
      assert front + [peer] == received;
    }
  }

  // ------------------------------------------------------------- sending

  lemma MentionStep(targets: seq<string>, i: nat)
    requires i < |targets|
    ensures var before, after, t := targets[..i], targets[..i + 1], targets[i];
            && Members(after) == Members(before) + {t}
            && Distinct(after) == Distinct(before) + if t in Members(before) then [] else [t]
  {
    assert targets[..i + 1] == targets[..i] + [targets[i]];
    assert targets[..i + 1][..i] == targets[..i];
    MembersSnoc(targets[..i], targets[i]);
    assert Distinct(targets[..i]) + [] == Distinct(targets[..i]);
  }

  /** One announcement round: a send to every configured and every observed target, and only one to each. */
  method SendRound(configured: seq<string>, observed: seq<string>) returns (sends: seq<string>)
    ensures NoRepeats(sends)
    ensures Members(sends) == Members(configured) + Members(observed)
    ensures sends == Distinct(configured + observed)
  {
    var targets := configured + observed;
    var sent: set<string> := {};
    sends := [];
    for i := 0 to |targets|
      invariant sends == Distinct(targets[..i]) && sent == Members(targets[..i])
    {
      MentionStep(targets, i);
      hide Distinct, Members;
      if targets[i] !in sent {
        sent := sent + {targets[i]};
        sends := sends + [targets[i]];
      }
    }
    assert targets[..|targets|] == targets;
    DistinctFacts(targets);
    MembersConcat(configured, observed);
  }
}
