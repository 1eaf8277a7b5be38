/** What the signed payload of an announcement determines. */
module Payloads {
  import opened Gossip
  import opened Machine
  import Text

  // ---------------------------------------------------------- joining strings

  predicate Free(s: string, c: char) {
    c !in s
  }

  predicate AllFree(parts: seq<string>, c: char) {
    forall i :: 0 <= i < |parts| ==> Free(parts[i], c)
  }

  lemma Assoc(a: string, b: string, c: string)
    ensures a + b + c == a + (b + c)
  {
  }

  lemma Slices(s: string, a: string, c: char, b: string)
    requires s == a + ([c] + b)
    ensures |s| == |a| + 1 + |b| && s[..|a|] == a && s[|a| + 1..] == b
  {
  }

  lemma JoinFindsFirst(parts: seq<string>, c: char)
    requires |parts| > 1 && Free(parts[0], c)
    ensures var s, n := Text.Join(parts, [c]), |parts[0]|;
            && Text.Find(s, c) == Some(n) && n < |s|
            && s[..n] == parts[0] && s[n + 1..] == Text.Join(parts[1..], [c])
  {
    var s, head, tail := Text.Join(parts, [c]), parts[0], Text.Join(parts[1..], [c]);
    assert s == head + ([c] + tail) by {
      Assoc(head, [c], tail);
    }
    hide Text.Join;
    Text.FindFirst(s, head, c, tail);
    Slices(s, head, c, tail);
  }

  /** Joining loses nothing as long as no part contains the separator. */
  lemma {:induction false} JoinIsInjective(a: seq<string>, b: seq<string>, c: char)
    requires a != [] && b != [] && Text.Join(a, [c]) == Text.Join(b, [c])
    requires AllFree(a, c) && AllFree(b, c)
    ensures a == b
    decreases |a|
  {
    if |a| == 1 && |b| == 1 {
    } else if |a| == 1 {
      JoinFindsFirst(b, c);
    } else if |b| == 1 {
      JoinFindsFirst(a, c);
    } else {
      JoinFindsFirst(a, c);
      JoinFindsFirst(b, c);
      JoinIsInjective(a[1..], b[1..], c);
      assert a == [a[0]] + a[1..] && b == [b[0]] + b[1..];
    }
  }

  /** How many separators the parts contain themselves. */
  ghost function Inner(parts: seq<string>, c: char): nat {
    if parts == [] then 0 else multiset(parts[0])[c] + Inner(parts[1..], c)
  }

  lemma {:induction false} JoinCount(parts: seq<string>, c: char)
    requires parts != []
    ensures multiset(Text.Join(parts, [c]))[c] == |parts| - 1 + Inner(parts, c)
  {
    if |parts| > 1 {
      JoinCount(parts[1..], c);
    } else {
      assert parts[1..] == [];
    }
  }

  lemma {:induction false} InnerZero(parts: seq<string>, c: char)
    ensures Inner(parts, c) == 0 <==> AllFree(parts, c)
  {
    if parts != [] {
      InnerZero(parts[1..], c);
      assert c in multiset(parts[0]) <==> c in parts[0];
      assert AllFree(parts, c) <==> Free(parts[0], c) && AllFree(parts[1..], c);
    }
  }

  /** Counting separators: of two equally long lists with one join, either both are free of it or neither is. */
  lemma JoinFixesFree(a: seq<string>, b: seq<string>, c: char)
    requires a != [] && |a| == |b| && Text.Join(a, [c]) == Text.Join(b, [c]) && AllFree(a, c)
    ensures a == b
  {
    JoinCount(a, c);
    JoinCount(b, c);
    InnerZero(a, c);
    InnerZero(b, c);
    JoinIsInjective(a, b, c);
  }

  lemma PairTail(a: string, b: string, c: string, tail: string)
    ensures a + c + (b + c + tail) == (a + c + b) + (c + tail)
  {
  }

  lemma {:induction false} JoinPair(parts: seq<string>, i: nat, u: string, v: string, c: char)
    requires i + 1 < |parts| && u + [c] + v == parts[i] + [c] + parts[i + 1]
    ensures Text.Join(parts[i := u][i + 1 := v], [c]) == Text.Join(parts, [c])
  {
    var q := parts[i := u][i + 1 := v];
    if i > 0 {
      JoinPair(parts[1..], i - 1, u, v, c);
      assert q[1..] == parts[1..][i - 1 := u][i := v];
    } else if |parts| > 2 {
      var tail := Text.Join(parts[2..], [c]);
      assert parts[1..][1..] == parts[2..] && q[1..][1..] == parts[2..];
      assert Text.Join(parts, [c]) == parts[0] + [c] + (parts[1] + [c] + tail);
      assert Text.Join(q, [c]) == u + [c] + (v + [c] + tail);
      PairTail(parts[0], parts[1], [c], tail);
      PairTail(u, v, [c], tail);
    }
  }

  ghost predicate Determined(parts: seq<string>, c: char) {
    forall q: seq<string> :: |q| == |parts| && Text.Join(q, [c]) == Text.Join(parts, [c]) ==> q == parts
  }

  /** Where a part contains the separator the text around it can be read differently. */
  lemma SeparatorShifts(parts: seq<string>, i: nat, c: char) returns (q: seq<string>)
    requires i < |parts| && |parts| >= 2 && !Free(parts[i], c)
    ensures |q| == |parts| && q != parts && Text.Join(q, [c]) == Text.Join(parts, [c])
  {
    var k := Text.Find(parts[i], c).value;
    var x, y := parts[i][..k], parts[i][k + 1..];
    assert parts[i] == x + [c] + y;
    if i + 1 < |parts| {
      assert x + [c] + (y + [c] + parts[i + 1]) == parts[i] + [c] + parts[i + 1];
      JoinPair(parts, i, x, y + [c] + parts[i + 1], c);
      q := parts[i := x][i + 1 := y + [c] + parts[i + 1]];
      assert q[i] != parts[i];
    } else {
      assert (parts[i - 1] + [c] + x) + [c] + y == parts[i - 1] + [c] + parts[i];
      JoinPair(parts, i - 1, parts[i - 1] + [c] + x, y, c);
      q := parts[i - 1 := parts[i - 1] + [c] + x][i := y];
      assert q[i] != parts[i];
    }
  }

  /** A join determines its parts, among lists as long, exactly when none contains the separator. */
  lemma JoinDeterminesIff(parts: seq<string>, c: char)
    requires |parts| >= 2
    ensures Determined(parts, c) <==> AllFree(parts, c)
  {
    if AllFree(parts, c) {
      forall q: seq<string> | |q| == |parts| && Text.Join(q, [c]) == Text.Join(parts, [c])
        ensures q == parts
      {
        JoinFixesFree(parts, q, c);
      }
    } else {
      var i :| 0 <= i < |parts| && !Free(parts[i], c);
      var q := SeparatorShifts(parts, i, c);
    }
  }

  // ---------------------------------------------------------------- payloads

  /** The strings that the current payload joins. */
  function PartsOf(h: Hashes, a: Announcement): seq<string> {
    [a.agentId, OrEmpty(a.agentVersion)] + CommonOf(h, a)
  }

  /** Id, version, addresses, operating system and architecture: the strings that stand next to other strings. */
  predicate FreeTexts(a: Announcement) {
    && Free(a.agentId, '|') && Free(OrEmpty(a.agentVersion), '|')
    && Free(OrEmpty(a.addr), '|') && Free(OrEmpty(a.statusAddr), '|')
    && Free(a.capabilities.os, '|') && Free(a.capabilities.arch, '|')
  }

  predicate FreeRest(h: Hashes, a: Announcement) {
    && Free(Text.Join(a.capabilities.tags, ","), '|')
    && Free(DigestOf(h, a.ban), '|') && Free(DigestOf(h, a.fault), '|') && Free(DigestOf(h, a.probe), '|')
  }

  lemma DecimalIsFree(n: nat)
    ensures Free(Text.Decimal(n), '|')
  {
    var s := Text.Decimal(n);
    assert forall i :: 0 <= i < |s| ==> Text.IsDigit(s[i]);
  }

  lemma PartsAreFree(h: Hashes, a: Announcement)
    requires FreeTexts(a) && FreeRest(h, a)
    ensures AllFree(PartsOf(h, a), '|')
  {
    DecimalIsFree(a.tsMs);
    DecimalIsFree(a.capabilities.cpuCores);
    DecimalIsFree(RoleOf(a).epoch);
    DecimalIsFree(RoleOf(a).score);
  }

  lemma PartsFixFields(h: Hashes, a: Announcement, b: Announcement)
    requires PartsOf(h, a) == PartsOf(h, b)
    ensures forall i :: 0 <= i < 15 ==> PartsOf(h, a)[i] == PartsOf(h, b)[i]
    ensures a.tsMs == b.tsMs && a.capabilities.cpuCores == b.capabilities.cpuCores
    ensures RoleOf(a).epoch == RoleOf(b).epoch && RoleOf(a).score == RoleOf(b).score
    ensures RoleOf(a).isCoordinator == RoleOf(b).isCoordinator
  {
    var x, y := PartsOf(h, a), PartsOf(h, b);
    assert x[2] == y[2] && x[7] == y[7] && x[9] == y[9] && x[10] == y[10] && x[11] == y[11];
    assert Text.Value(x[2]) == a.tsMs && Text.Value(y[2]) == b.tsMs;
    assert Text.Value(x[7]) == a.capabilities.cpuCores && Text.Value(y[7]) == b.capabilities.cpuCores;
    assert Text.Value(x[10]) == RoleOf(a).epoch && Text.Value(y[10]) == RoleOf(b).epoch;
    assert Text.Value(x[11]) == RoleOf(a).score && Text.Value(y[11]) == RoleOf(b).score;
    assert |x[9]| == (if RoleOf(a).isCoordinator then 4 else 5) && |y[9]| == (if RoleOf(b).isCoordinator then 4 else 5);
  }

  /**
   * What a payload binds: whatever announcement shares the payload of one whose fields hold no bar, bars of its own
   * or not, agrees with it on every text that is signed. Tags are signed as joined by commas, missing addresses and
   * version as empty.
   */
  lemma PayloadBindsFields(h: Hashes, a: Announcement, b: Announcement)
    requires FreeTexts(a) && FreeRest(h, a)
    requires Text.Join(PartsOf(h, a), "|") == Text.Join(PartsOf(h, b), "|")
    ensures PartsOf(h, a) == PartsOf(h, b)
    ensures a.agentId == b.agentId && OrEmpty(a.agentVersion) == OrEmpty(b.agentVersion) && a.tsMs == b.tsMs
    ensures OrEmpty(a.addr) == OrEmpty(b.addr) && OrEmpty(a.statusAddr) == OrEmpty(b.statusAddr)
    ensures a.capabilities.os == b.capabilities.os && a.capabilities.arch == b.capabilities.arch
    ensures a.capabilities.cpuCores == b.capabilities.cpuCores
    ensures Text.Join(a.capabilities.tags, ",") == Text.Join(b.capabilities.tags, ",")
    ensures RoleOf(a).isCoordinator == RoleOf(b).isCoordinator && RoleOf(a).epoch == RoleOf(b).epoch
    ensures RoleOf(a).score == RoleOf(b).score
    ensures DigestOf(h, a.ban) == DigestOf(h, b.ban) && DigestOf(h, a.fault) == DigestOf(h, b.fault)
    ensures DigestOf(h, a.probe) == DigestOf(h, b.probe)
  {
    PartsAreFree(h, a);
    JoinFixesFree(PartsOf(h, a), PartsOf(h, b), '|');
    PartsFixFields(h, a, b);
  }

  ghost predicate Bound(h: Hashes, a: Announcement) {
    forall b: Announcement :: Text.Join(PartsOf(h, a), "|") == Text.Join(PartsOf(h, b), "|") ==> PartsOf(h, a) == PartsOf(h, b)
  }

  /** Splits a text at its first bar. */
  lemma AtBar(s: string) returns (x: string, y: string)
    requires !Free(s, '|')
    ensures s == x + "|" + y && |x| < |s| && |y| < |s|
  {
    var k := Text.Find(s, '|').value;
    x, y := s[..k], s[k + 1..];
  }

  lemma PairShifts(h: Hashes, a: Announcement, b: Announcement, i: nat, u: string, v: string)
    requires i + 1 < |PartsOf(h, a)| && u != PartsOf(h, a)[i]
    requires u + "|" + v == PartsOf(h, a)[i] + "|" + PartsOf(h, a)[i + 1]
    requires PartsOf(h, b) == PartsOf(h, a)[i := u][i + 1 := v]
    ensures !Bound(h, a)
  {
    hide PartsOf;
    JoinPair(PartsOf(h, a), i, u, v, '|');
    assert PartsOf(h, b)[i] != PartsOf(h, a)[i];
  }

  lemma IdParts(h: Hashes, a: Announcement, u: string, v: string)
    ensures PartsOf(h, a)[0] == a.agentId && PartsOf(h, a)[1] == OrEmpty(a.agentVersion)
    ensures PartsOf(h, a.(agentId := u, agentVersion := Some(v))) == PartsOf(h, a)[0 := u][1 := v]
  {
    var b := a.(agentId := u, agentVersion := Some(v));
    assert CommonOf(h, b) == CommonOf(h, a);
    hide CommonOf;
    assert PartsOf(h, a) == [a.agentId, OrEmpty(a.agentVersion)] + CommonOf(h, a);
  }

  lemma AddressParts(h: Hashes, a: Announcement, u: string, v: string)
    ensures PartsOf(h, a)[3] == OrEmpty(a.addr) && PartsOf(h, a)[4] == OrEmpty(a.statusAddr)
    ensures PartsOf(h, a.(addr := Some(u), statusAddr := Some(v))) == PartsOf(h, a)[3 := u][4 := v]
  {
    hide Text.Join, Text.Decimal;
  }

  lemma PlatformParts(h: Hashes, a: Announcement, u: string, v: string)
    ensures PartsOf(h, a)[5] == a.capabilities.os && PartsOf(h, a)[6] == a.capabilities.arch
    ensures PartsOf(h, a.(capabilities := a.capabilities.(os := u, arch := v))) == PartsOf(h, a)[5 := u][6 := v]
  {
    hide Text.Join, Text.Decimal;
  }

  /** A bar in one of two neighbouring texts: the text beyond it can be read as part of the other. */
  lemma Regroup(left: string, right: string) returns (u: string, v: string)
    requires !Free(left, '|') || !Free(right, '|')
    ensures u + "|" + v == left + "|" + right && u != left
  {
    if !Free(left, '|') {
      var x, y := AtBar(left);
      u, v := x, y + "|" + right;
    } else {
      var x, y := AtBar(right);
      u, v := left + "|" + x, y;
    }
  }

  lemma BarShiftsId(h: Hashes, a: Announcement)
    requires !Free(a.agentId, '|') || !Free(OrEmpty(a.agentVersion), '|')
    ensures !Bound(h, a)
  {
    var u, v := Regroup(a.agentId, OrEmpty(a.agentVersion));
    IdParts(h, a, u, v);
    assert |PartsOf(h, a)| == 15;
    hide PartsOf, Bound, Text.Join, Free;
    PairShifts(h, a, a.(agentId := u, agentVersion := Some(v)), 0, u, v);
  }

  lemma BarShiftsAddress(h: Hashes, a: Announcement)
    requires !Free(OrEmpty(a.addr), '|') || !Free(OrEmpty(a.statusAddr), '|')
    ensures !Bound(h, a)
  {
    var u, v := Regroup(OrEmpty(a.addr), OrEmpty(a.statusAddr));
    AddressParts(h, a, u, v);
    assert |PartsOf(h, a)| == 15;
    hide PartsOf, Bound, Text.Join, Free;
    PairShifts(h, a, a.(addr := Some(u), statusAddr := Some(v)), 3, u, v);
  }

  lemma BarShiftsPlatform(h: Hashes, a: Announcement)
    requires !Free(a.capabilities.os, '|') || !Free(a.capabilities.arch, '|')
    ensures !Bound(h, a)
  {
    var u, v := Regroup(a.capabilities.os, a.capabilities.arch);
    PlatformParts(h, a, u, v);
    assert |PartsOf(h, a)| == 15;
    hide PartsOf, Bound, Text.Join, Free;
    PairShifts(h, a, a.(capabilities := a.capabilities.(os := u, arch := v)), 5, u, v);
  }

  /** With bar-free tags, a payload determines the signed texts exactly when no other text holds a bar either. */
  lemma PayloadBindsIff(h: Hashes, a: Announcement)
    requires FreeRest(h, a)
    ensures Bound(h, a) <==> FreeTexts(a)
  {
    hide PartsOf, Text.Join;
    if FreeTexts(a) {
      forall b: Announcement | Text.Join(PartsOf(h, a), "|") == Text.Join(PartsOf(h, b), "|")
        ensures PartsOf(h, a) == PartsOf(h, b)
      {
        PayloadBindsFields(h, a, b);
      }
    } else if !Free(a.agentId, '|') || !Free(OrEmpty(a.agentVersion), '|') {
      BarShiftsId(h, a);
    } else if !Free(OrEmpty(a.addr), '|') || !Free(OrEmpty(a.statusAddr), '|') {
      BarShiftsAddress(h, a);
    } else {
      BarShiftsPlatform(h, a);
    }
  }

  lemma PairJoin(x: string, y: string, tail: string)
    ensures x + "|" + (y + "|" + tail) == (x + "|" + y) + "|" + tail
  {
  }

  lemma JoinSplitsHead(x: string, y: string, rest: seq<string>)
    requires rest != []
    ensures Text.Join([x + "|" + y] + rest, "|") == Text.Join([x, y] + rest, "|")
  {
    assert ([x, y] + rest)[1..] == [y] + rest && ([y] + rest)[1..] == rest;
    assert ([x + "|" + y] + rest)[1..] == rest;
    PairJoin(x, y, Text.Join(rest, "|"));
  }

  lemma {:induction false} JoinSplits(before: seq<string>, x: string, y: string, after: seq<string>)
    ensures Text.Join(before + [x + "|" + y] + after, "|") == Text.Join(before + [x, y] + after, "|")
  {
    var left, right := before + [x + "|" + y] + after, before + [x, y] + after;
    if before != [] {
      JoinSplits(before[1..], x, y, after);
      assert left[1..] == before[1..] + [x + "|" + y] + after && right[1..] == before[1..] + [x, y] + after;
    } else if after != [] {
      JoinSplitsHead(x, y, after);
      assert left == [x + "|" + y] + after && right == [x, y] + after;
    } else {
      assert left == [x + "|" + y] && right == [x, y] && right[1..] == [y];
    }
  }

  function Plain(id: string, version: string, tsMs: U64, addr: string, status: string, c: Capabilities): Announcement {
    Announcement(id, Some(version), tsMs, Some(addr), Some(status), None, None, c, [], None, None, None, None)
  }

  lemma PlainParts(h: Hashes, id: string, version: string, tsMs: U64, addr: string, status: string, c: Capabilities)
    ensures PartsOf(h, Plain(id, version, tsMs, addr, status, c)) ==
            [id, version, Text.Decimal(tsMs), addr, status, c.os, c.arch, Text.Decimal(c.cpuCores), Text.Join(c.tags, ",")]
            + ["false", Text.Decimal(0), Text.Decimal(0), "", "", ""]
  {
    hide Text.Decimal, Text.Join;
  }

  lemma OnePlaceOn(i: string, v: string, n: seq<string>, x: string, t: string, end: seq<string>)
    ensures Text.Join([i, v] + n + [x + "|" + t] + end, "|") == Text.Join([i + "|" + v] + n + [x, t] + end, "|")
  {
    hide Text.Join;
    JoinSplits([i, v] + n, x, t, end);
    JoinSplits([], i, v, n + [x, t] + end);
    assert [] + [i, v] + (n + [x, t] + end) == [i, v] + n + [x, t] + end;
    assert [] + [i + "|" + v] + (n + [x, t] + end) == [i + "|" + v] + n + [x, t] + end;
  }

  lemma TagsOfOne(tag: string)
    ensures Text.Join([tag], ",") == tag
  {
  }

  /** For a bar in a tag it depends on the other texts: with a numeric address every text can move one place. */
  lemma BarInTagCanShift(h: Hashes, id: string, version: string, status: string, c: Capabilities, tag: string)
    ensures var a := Plain(id, version, 1, Text.Decimal(2), status, c.(cpuCores := 3, tags := [Text.Decimal(4) + "|" + tag]));
            !Bound(h, a)
  {
    var a := Plain(id, version, 1, Text.Decimal(2), status, c.(cpuCores := 3, tags := [Text.Decimal(4) + "|" + tag]));
    var b := Plain(id + "|" + version, Text.Decimal(1), 2, status, c.os, Capabilities(c.arch, Text.Decimal(3), 4, [tag]));
    PlainParts(h, id, version, 1, Text.Decimal(2), status, c.(cpuCores := 3, tags := [Text.Decimal(4) + "|" + tag]));
    PlainParts(h, id + "|" + version, Text.Decimal(1), 2, status, c.os, Capabilities(c.arch, Text.Decimal(3), 4, [tag]));
    TagsOfOne(Text.Decimal(4) + "|" + tag);
    TagsOfOne(tag);
    hide PartsOf, Text.Join, Text.Decimal, Plain;
    var n := [Text.Decimal(1), Text.Decimal(2), status, c.os, c.arch, Text.Decimal(3)];
    var end := ["false", Text.Decimal(0), Text.Decimal(0), "", "", ""];
    OnePlaceOn(id, version, n, Text.Decimal(4), tag, end);
    assert PartsOf(h, a) == [id, version] + n + [Text.Decimal(4) + "|" + tag] + end;
    assert PartsOf(h, b) == [id + "|" + version] + n + [Text.Decimal(4), tag] + end;
    assert PartsOf(h, a)[0] != PartsOf(h, b)[0];
  }

  lemma HeadsFree(id: string, version: string, rest: seq<string>)
    requires AllFree([id, version] + rest, '|')
    ensures Free(id, '|') && Free(version, '|')
  {
    assert ([id, version] + rest)[0] == id && ([id, version] + rest)[1] == version;
  }

  lemma SameHeads(a: string, b: string, s: seq<string>, c: string, d: string, t: seq<string>)
    requires [a, b] + s == [c, d] + t
    ensures a == c && b == d && s == t
  {
    assert ([a, b] + s)[0] == a && ([a, b] + s)[1] == b && ([a, b] + s)[2..] == s;
    assert ([c, d] + t)[0] == c && ([c, d] + t)[1] == d && ([c, d] + t)[2..] == t;
  }

  lemma FreeHeadsDiffer(id: string, version: string, ours: seq<string>, other: string, theirs: seq<string>)
    requires ours != [] && |ours| == |theirs| && Free(id, '|') && Free(version, '|') && Free(other, '|')
    requires Free(theirs[0], '|') && theirs[0] != version
    ensures Text.Join([id, version] + ours, "|") != Text.Join([other] + theirs, "|")
  {
    var left, right := [id, version] + ours, [other] + theirs;
    if Text.Join(left, "|") == Text.Join(right, "|") {
      JoinFindsFirst(left, '|');
      JoinFindsFirst(right, '|');
      assert left[1..] == [version] + ours && right[1..] == theirs;
      JoinFindsFirst([version] + ours, '|');
      if |theirs| > 1 {
        JoinFindsFirst(theirs, '|');
      }
    }
  }

  lemma LegacyJoin(id: string, version: string, ours: seq<string>, other: string, theirs: seq<string>)
    requires ours != [] && |ours| == |theirs| && AllFree([id, version] + ours, '|')
    requires theirs[0] != version
    requires Free(theirs[0], '|')
    ensures Text.Join([id, version] + ours, "|") == Text.Join([other] + theirs, "|") <==>
              other == id + "|" + version && ours == theirs
  {
    hide Text.Join;
    JoinSplitsHead(id, version, theirs);
    if Text.Join([id, version] + ours, "|") == Text.Join([other] + theirs, "|") {
      HeadsFree(id, version, ours);
      if Free(other, '|') {
        FreeHeadsDiffer(id, version, ours, other, theirs);
      } else {
        var x, y := AtBar(other);
        JoinSplitsHead(x, y, theirs);
        JoinFixesFree([id, version] + ours, [x, y] + theirs, '|');
        SameHeads(id, version, ours, x, y, theirs);
      }
    }
  }

  lemma LegacyText(h: Hashes, a: Announcement, b: Announcement)
    requires AllFree(PartsOf(h, a), '|') && Versioned(a) && !Versioned(b) && !Text.AllDigits(a.agentVersion.value)
    ensures SignedText(h, a) == SignedText(h, b) <==>
              b.agentId == a.agentId + "|" + a.agentVersion.value && CommonOf(h, a) == CommonOf(h, b)
  {
    var id, version, ours, theirs := a.agentId, a.agentVersion.value, CommonOf(h, a), CommonOf(h, b);
    assert PartsOf(h, a) == [id, version] + ours;
    assert theirs[0] == Text.Decimal(b.tsMs);
    DecimalIsFree(b.tsMs);
    hide CommonOf, PartsOf;
    LegacyJoin(id, version, ours, b.agentId, theirs);
  }

  /**
   * Which announcements share the text that a versioned, bar-free one is checked against: the versioned ones that
   * agree on every signed text, and the legacy ones whose id is that id and version with a bar between.
   */
  lemma SignedTextIff(h: Hashes, a: Announcement, b: Announcement)
    requires FreeTexts(a) && FreeRest(h, a) && Versioned(a) && !Text.AllDigits(a.agentVersion.value)
    ensures SignedText(h, a) == SignedText(h, b) <==>
              if Versioned(b) then PartsOf(h, a) == PartsOf(h, b)
              else b.agentId == a.agentId + "|" + a.agentVersion.value && CommonOf(h, a) == CommonOf(h, b)
  {
    PartsAreFree(h, a);
    if Versioned(b) {
      if SignedText(h, a) == SignedText(h, b) {
        JoinFixesFree(PartsOf(h, a), PartsOf(h, b), '|');
      }
    } else {
      LegacyText(h, a, b);
    }
  }

  lemma JoinNotEmpty(x: seq<string>)
    requires "" !in x
    ensures Text.Join(x, ",") == "" <==> x == []
  {
    if x != [] {
      assert x[0] in x;
    }
  }

  /** What is signed of tags and addresses: tags without commas or blanks are bound, a comma merges two of them. */
  lemma TagsAreBoundIff(x: seq<string>, y: seq<string>)
    requires AllFree(x, ',') && AllFree(y, ',') && "" !in x && "" !in y
    ensures Text.Join(x, ",") == Text.Join(y, ",") <==> x == y
  {
    if x != [] && y != [] && Text.Join(x, ",") == Text.Join(y, ",") {
      JoinIsInjective(x, y, ',');
    }
    JoinNotEmpty(x);
    JoinNotEmpty(y);
  }

  lemma MergedTags(first: string, second: string)
    ensures Text.Join([first + "," + second], ",") == Text.Join([first, second], ",")
  {
    assert [first, second][1..] == [second];
  }

  lemma SameTagText(h: Hashes, a: Announcement, x: seq<string>, y: seq<string>)
    requires Text.Join(x, ",") == Text.Join(y, ",")
    ensures var c := a.capabilities;
            SignedText(h, a.(capabilities := c.(tags := x))) == SignedText(h, a.(capabilities := c.(tags := y)))
  {
    hide Payload, LegacyPayload, Text.Join, Text.Decimal, Text.Blank;
  }

  /** Payloads keep apart neither a tag with a comma from two tags, nor an empty address from none. */
  lemma PayloadLeavesOpen(h: Hashes, a: Announcement, first: string, second: string)
    ensures var merged := a.(capabilities := a.capabilities.(tags := [first + "," + second]));
            var apart := a.(capabilities := a.capabilities.(tags := [first, second]));
            merged != apart && SignedText(h, merged) == SignedText(h, apart)
    ensures var none, empty := a.(addr := None), a.(addr := Some(""));
            none != empty && SignedText(h, none) == SignedText(h, empty)
  {
    MergedTags(first, second);
    SameTagText(h, a, [first + "," + second], [first, second]);
    hide Payload, LegacyPayload, Text.Join, Text.Decimal, Text.Blank;
    assert |[first + "," + second]| == 1 && |[first, second]| == 2;
  }
}
