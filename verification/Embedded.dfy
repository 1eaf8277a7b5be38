/** The Linux text decoders: mount-table escapes and the process stat line. */
module Embedded {
  import opened Machine
  import opened Text

  // ------------------------------------------------------------ mount table

  /** Every occurrence of `pattern`, found from left to right without overlap, becomes `c`. */
  function ReplaceAll(s: string, pattern: string, c: char): string
    requires pattern != []
    decreases |s|
  {
    if |s| < |pattern| then s
    else if pattern <= s then [c] + ReplaceAll(s[|pattern|..], pattern, c)
    else [s[0]] + ReplaceAll(s[1..], pattern, c)
  }

  function UnescapeMount(raw: string): string {
    ReplaceAll(ReplaceAll(ReplaceAll(ReplaceAll(raw, "\\040", ' '), "\\011", '\t'), "\\012", '\n'), "\\134", '\\')
  }

  /** The escape codes of the mount table and the characters that they stand for. */
  function Code(k: nat): (s: string)
    requires k < 4
    ensures |s| == 4 && s[0] == '\\' && '\\' !in s[1..]
  {
    if k == 0 then "\\040" else if k == 1 then "\\011" else if k == 2 then "\\012" else "\\134"
  }

  function Plain(k: nat): char
    requires k < 4
  {
    if k == 0 then ' ' else if k == 1 then '\t' else if k == 2 then '\n' else '\\'
  }

  /** Which of the first `n` codes a string starts with; `n` when none. */
  function CodeAt(n: nat, s: string): (k: nat)
    requires n <= 4
    ensures k <= n
    ensures k < n ==> Code(k) <= s
    ensures k == n ==> forall j :: 0 <= j < n ==> !(Code(j) <= s)
  {
    if n == 0 then 0
    else
      var k := CodeAt(n - 1, s);
      if k < n - 1 then k else if Code(n - 1) <= s then n - 1 else n
  }

  /** A single left-to-right pass that knows the first `n` codes. */
  function OnePass(n: nat, s: string): string
    requires n <= 4
    decreases |s|
  {
    if s == [] then []
    else
      var k := CodeAt(n, s);
      if k < n then [Plain(k)] + OnePass(n, s[4..]) else [s[0]] + OnePass(n, s[1..])
  }

  lemma CodesDiffer(j: nat, k: nat, s: string)
    requires j < 4 && k < 4 && Code(j) <= s && Code(k) <= s
    ensures j == k
  {
    assert Code(j)[1] == s[1] == Code(k)[1] && Code(j)[2] == s[2] == Code(k)[2] && Code(j)[3] == s[3] == Code(k)[3];
  }

  lemma CodeAtIs(n: nat, k: nat, s: string)
    requires k < n <= 4 && Code(k) <= s
    ensures CodeAt(n, s) == k
  {
    CodesDiffer(CodeAt(n, s), k, s);
  }

  lemma OnePassKeeps(n: nat, c: char, rest: string)
    requires n <= 4 && c != '\\'
    ensures OnePass(n, [c] + rest) == [c] + OnePass(n, rest)
  {
    var s := [c] + rest;
    assert forall j :: 0 <= j < n ==> Code(j)[0] == '\\';
    assert s[1..] == rest;
  }

  lemma OnePassKeepsBackslash(n: nat, s: string)
    requires n < 4 && Code(n) <= s
    ensures OnePass(n, s) == ['\\'] + OnePass(n, s[1..])
  {
    if CodeAt(n, s) < n {
      CodesDiffer(CodeAt(n, s), n, s);
    }
  }

  lemma CodeIsPrefix(n: nat, s: string)
    requires n < 4 && Code(n) <= s
    ensures s[1..] == [Code(n)[1]] + ([Code(n)[2]] + ([Code(n)[3]] + s[4..]))
    ensures '\\' != Code(n)[1] && '\\' != Code(n)[2] && '\\' != Code(n)[3]
  {
    assert s[1] == Code(n)[1] && s[2] == Code(n)[2] && s[3] == Code(n)[3];
  }

  /** A code that the pass does not know goes through unchanged. */
  lemma OnePassKeepsCode(n: nat, s: string)
    requires n < 4 && Code(n) <= s
    ensures OnePass(n, s) == Code(n) + OnePass(n, s[4..])
  {
    hide OnePass, CodeAt;
    var c, rest := Code(n), s[4..];
    OnePassKeepsBackslash(n, s);
    CodeIsPrefix(n, s);
    hide Code;
    OnePassKeeps(n, c[3], rest);
    OnePassKeeps(n, c[2], [c[3]] + rest);
    OnePassKeeps(n, c[1], [c[2]] + ([c[3]] + rest));
    assert c == ['\\', c[1], c[2], c[3]];
  }

  /** Digits in the output were digits in the input: below the backslash code the pass writes no digit. */
  lemma DigitOrigin(n: nat, s: string)
    requires n < 4 && OnePass(n, s) != [] && IsDigit(OnePass(n, s)[0])
    ensures s != [] && s[0] == OnePass(n, s)[0] && OnePass(n, s)[1..] == OnePass(n, s[1..])
  {
  }

  lemma CodeOrigin(n: nat, s: string)
    requires n < 4 && s != [] && CodeAt(n, s) == n && Code(n) <= OnePass(n, s)
    ensures Code(n) <= s
  {
    var t, c := OnePass(n, s), Code(n);
    assert t[0] == c[0] && t[1] == c[1] && t[2] == c[2] && t[3] == c[3];
    assert t[1..] == OnePass(n, s[1..]);
    DigitOrigin(n, s[1..]);
    assert s[1..][1..] == s[2..];
    assert t[2..] == t[1..][1..];
    DigitOrigin(n, s[2..]);
    assert s[2..][1..] == s[3..];
    assert t[3..] == t[2..][1..];
    DigitOrigin(n, s[3..]);
  }

  lemma ReplaceSkips(t: string, pattern: string, c: char)
    requires pattern != [] && t != [] && !(pattern <= t)
    ensures ReplaceAll(t, pattern, c) == [t[0]] + ReplaceAll(t[1..], pattern, c)
  {
    if |t| < |pattern| {
      assert t == [t[0]] + t[1..];
    }
  }

  /** Replacing one more code after the pass is a pass that knows it: no replacement creates a new code. */
  lemma {:induction false} OneMoreCode(n: nat, s: string)
    requires n < 4
    ensures ReplaceAll(OnePass(n, s), Code(n), Plain(n)) == OnePass(n + 1, s)
    decreases |s|
  {
    if s != [] {
      var t, k := OnePass(n, s), CodeAt(n, s);
      if k < n {
        OneMoreCode(n, s[4..]);
        CodeAtIs(n + 1, k, s);
        ReplaceSkips(t, Code(n), Plain(n));
      } else if Code(n) <= s {
        OnePassKeepsCode(n, s);
        CodeAtIs(n + 1, n, s);
        OneMoreCode(n, s[4..]);
        assert t[4..] == OnePass(n, s[4..]);
      } else {
        if Code(n) <= t {
          CodeOrigin(n, s);
        }
        OneMoreCode(n, s[1..]);
        ReplaceSkips(t, Code(n), Plain(n));
      }
    }
  }

  lemma {:induction false} OnePassZero(s: string)
    ensures OnePass(0, s) == s
  {
    if s != [] {
      OnePassZero(s[1..]);
    }
  }

  /** On every string the four replacements one after another equal a single left-to-right pass. */
  lemma UnescapeIsOnePass(raw: string)
    ensures UnescapeMount(raw) == OnePass(4, raw)
  {
    hide OnePass, ReplaceAll, CodeAt;
    OnePassZero(raw);
    OneMoreCode(0, raw);
    OneMoreCode(1, raw);
    OneMoreCode(2, raw);
    OneMoreCode(3, raw);
  }

  function EscapeChar(c: char): (r: string)
    ensures r != []
  {
    if c == ' ' then "\\040" else if c == '\t' then "\\011" else if c == '\n' then "\\012"
    else if c == '\\' then "\\134" else [c]
  }

  /** The escaping that getmntent(3) describes. */
  function Escape(s: string): string {
    if s == [] then [] else EscapeChar(s[0]) + Escape(s[1..])
  }

  lemma OnePassChar(c: char, rest: string)
    ensures OnePass(4, EscapeChar(c) + rest) == [c] + OnePass(4, rest)
  {
    var all := EscapeChar(c) + rest;
    if c == ' ' || c == '\t' || c == '\n' || c == '\\' {
      var k := if c == ' ' then 0 else if c == '\t' then 1 else if c == '\n' then 2 else 3;
      CodeAtIs(4, k, all);
      assert all[4..] == rest;
    } else {
      OnePassKeeps(4, c, rest);
    }
  }

  lemma {:induction false} OnePassEscape(s: string)
    ensures OnePass(4, Escape(s)) == s
  {
    if s != [] {
      OnePassEscape(s[1..]);
      OnePassChar(s[0], Escape(s[1..]));
    }
  }

  /** Every mount point comes back from the table as it went in. */
  lemma UnescapeUndoesEscape(s: string)
    ensures UnescapeMount(Escape(s)) == s
  {
    UnescapeIsOnePass(Escape(s));
    OnePassEscape(s);
  }

  /** What a table entry looks like: no bare separator, and every backslash starts a code. */
  predicate WellEscaped(raw: string) {
    forall i :: 0 <= i < |raw| ==>
      raw[i] != ' ' && raw[i] != '\t' && raw[i] != '\n' && (raw[i] == '\\' ==> CodeAt(4, raw[i..]) < 4)
  }

  lemma WellEscapedTail(raw: string, n: nat)
    requires n <= |raw| && WellEscaped(raw)
    ensures WellEscaped(raw[n..])
  {
    forall i | 0 <= i < |raw[n..]|
      ensures raw[n..][i] == raw[n + i] && raw[n..][i..] == raw[n + i..]
    {
    }
  }

  lemma {:induction false} EscapeOnePass(raw: string)
    requires WellEscaped(raw)
    ensures Escape(OnePass(4, raw)) == raw
    decreases |raw|
  {
    if raw != [] {
      assert raw[0..] == raw;
      var k := CodeAt(4, raw);
      var n := if k < 4 then 4 else 1;
      WellEscapedTail(raw, n);
      EscapeOnePass(raw[n..]);
      var t := OnePass(4, raw);
      assert t[1..] == OnePass(4, raw[n..]);
      assert raw == raw[..n] + raw[n..];
      assert EscapeChar(t[0]) == raw[..n];
    }
  }

  lemma WellEscapedCons(c: char, rest: string)
    requires WellEscaped(rest)
    ensures WellEscaped(EscapeChar(c) + rest)
  {
    var head := EscapeChar(c);
    var all := head + rest;
    forall i | 0 <= i < |all|
      ensures all[i] != ' ' && all[i] != '\t' && all[i] != '\n' && (all[i] == '\\' ==> CodeAt(4, all[i..]) < 4)
    {
      if i >= |head| {
        assert all[i] == rest[i - |head|] && all[i..] == rest[i - |head|..];
      } else if i == 0 && all[0] == '\\' {
        var k := if c == ' ' then 0 else if c == '\t' then 1 else if c == '\n' then 2 else 3;
        CodeAtIs(4, k, all[0..]);
      }
    }
  }

  lemma {:induction false} EscapeIsWellEscaped(s: string)
    ensures WellEscaped(Escape(s))
  {
    if s != [] {
      EscapeIsWellEscaped(s[1..]);
      WellEscapedCons(s[0], Escape(s[1..]));
    }
  }

  /** Decoding loses nothing exactly on the strings that the escaping can produce. */
  lemma EscapeUndoesUnescapeIff(raw: string)
    ensures Escape(UnescapeMount(raw)) == raw <==> WellEscaped(raw)
  {
    UnescapeIsOnePass(raw);
    if WellEscaped(raw) {
      EscapeOnePass(raw);
    }
    EscapeIsWellEscaped(UnescapeMount(raw));
  }

  /** A writer that escapes the number sign as well, by its octal code like the others. */
  function EscapeHashToo(s: string): string {
    if s == [] then [] else (if s[0] == '#' then "\\043" else EscapeChar(s[0])) + EscapeHashToo(s[1..])
  }

  /** The string with every number sign left escaped. */
  function HashEscaped(s: string): string {
    if s == [] then [] else (if s[0] == '#' then "\\043" else [s[0]]) + HashEscaped(s[1..])
  }

  lemma HashIsNoCode(rest: string)
    ensures var s := "\\043" + rest;
            s[1..] == ['0'] + (['4'] + (['3'] + rest)) && OnePass(4, s) == ['\\'] + OnePass(4, s[1..])
  {
    var s := "\\043" + rest;
    assert s[0] == '\\' && s[2] == '4' && s[3] == '3';
    forall j | 0 <= j < 4
      ensures !(Code(j) <= s)
    {
      assert Code(j)[2] != s[2] || Code(j)[3] != s[3];
    }
    hide Code;
  }

  lemma OnePassHash(rest: string)
    ensures OnePass(4, "\\043" + rest) == "\\043" + OnePass(4, rest)
  {
    HashIsNoCode(rest);
    hide OnePass, CodeAt, Code;
    OnePassKeeps(4, '0', ['4'] + (['3'] + rest));
    OnePassKeeps(4, '4', ['3'] + rest);
    OnePassKeeps(4, '3', rest);
  }

  lemma {:induction false} OnePassHashToo(s: string)
    ensures OnePass(4, EscapeHashToo(s)) == HashEscaped(s)
  {
    if s != [] {
      OnePassHashToo(s[1..]);
      hide OnePass, EscapeChar;
      if s[0] == '#' {
        OnePassHash(EscapeHashToo(s[1..]));
      } else {
        OnePassChar(s[0], EscapeHashToo(s[1..]));
      }
    } else {
      assert OnePass(4, "") == "";
    }
  }

  lemma {:induction false} HashEscapedLength(s: string)
    ensures |HashEscaped(s)| >= |s|
    ensures '#' in s ==> |HashEscaped(s)| > |s|
    ensures '#' !in s ==> HashEscaped(s) == s
  {
    if s != [] {
      HashEscapedLength(s[1..]);
      assert s == [s[0]] + s[1..];
    }
  }

  /** What such a writer escapes comes back exactly when it holds no number sign: the decoder does not know that code. */
  lemma HashComesBackIff(s: string)
    ensures UnescapeMount(EscapeHashToo(s)) == s <==> '#' !in s
  {
    UnescapeIsOnePass(EscapeHashToo(s));
    OnePassHashToo(s);
    HashEscapedLength(s);
  }

  // ------------------------------------------------------- process stat line

  /** `rest` starts two bytes past the last parenthesis, which must be a character boundary. */
  function ParseProcStat(stat: string): Option<(string, U64, U64)> {
    var start, end := Find(stat, '('), FindLast(stat, ')');
    if start.None? || end.None? || end.value <= start.value then None
    else if end.value + 2 > |stat| || stat[end.value + 1] >= '\U{80}' then None
    else
      var parts := SplitWhitespace(stat[end.value + 2..]);
      if |parts| < 13 then None
      else
        var utime, stime := ParseU64(parts[11]), ParseU64(parts[12]);
        if utime.None? || stime.None? then None
        else Some((stat[start.value + 1..end.value], utime.value, stime.value))
  }

  /** The line of proc(5): pid, command name in parentheses, then the fields from the third on. */
  function StatLine(pid: nat, name: string, fields: seq<string>, end: string): string {
    (Decimal(pid) + [' ']) + (['('] + (name + ([')'] + ([' '] + (Join(fields, " ") + end)))))
  }

  predicate StatFields(fields: seq<string>) {
    AreFields(fields) && forall i :: 0 <= i < |fields| ==> ')' !in fields[i]
  }

  lemma {:induction false} JoinHasNoParen(fields: seq<string>)
    requires StatFields(fields)
    ensures ')' !in Join(fields, " ")
  {
    if |fields| > 1 {
      JoinHasNoParen(fields[1..]);
    }
  }

  lemma {:induction false} DecimalHasNoParen(n: nat)
    ensures '(' !in Decimal(n)
  {
    var s := Decimal(n);
    assert forall i :: 0 <= i < |s| ==> IsDigit(s[i]);
  }

  lemma BlankHasNoParen(s: string)
    requires AllWhitespace(s)
    ensures ')' !in s
  {
  }

  lemma NoParenConcat(a: string, b: string, c: char)
    requires c !in a && c !in b
    ensures c !in a + b
  {
  }

  /** Where the parser finds the two parentheses, even when the name holds parentheses of its own. */
  lemma StatParens(pid: nat, name: string, fields: seq<string>, end: string)
    requires StatFields(fields) && AllWhitespace(end)
    ensures var line, p, tail := StatLine(pid, name, fields, end), |Decimal(pid)| + 1, Join(fields, " ") + end;
            && |line| == p + 3 + |name| + |tail|
            && Find(line, '(') == Some(p) && FindLast(line, ')') == Some(p + 1 + |name|)
            && line[p + 1..p + 1 + |name|] == name
            && line[p + 2 + |name|..] == [' '] + tail
  {
    var tail := Join(fields, " ") + end;
    DecimalHasNoParen(pid);
    JoinHasNoParen(fields);
    BlankHasNoParen(end);
    assert StatLine(pid, name, fields, end)
        == (Decimal(pid) + [' ']) + (['('] + (name + ([')'] + ([' '] + tail))));
    hide Find, FindLast, Decimal, Join, AllWhitespace, StatFields, StatLine;
    NoParenConcat(Decimal(pid), [' '], '(');
    NoParenConcat(Join(fields, " "), end, ')');
    NoParenConcat([' '], tail, ')');
    FindParens(StatLine(pid, name, fields, end), Decimal(pid) + [' '], name, [' '] + tail);
  }

  lemma DropOne(s: string, i: nat, rest: string)
    requires i <= |s| && s[i..] == [' '] + rest
    ensures i + 1 <= |s| && s[i] == ' ' && s[i + 1..] == rest
  {
    assert |s[i..]| == 1 + |rest| && s[i..][0] == ' ';
    assert s[i + 1..] == s[i..][1..];
  }

  /**
   * The parser inverts the stat line: whatever the command name, it returns that name with fields 14 and 15,
   * and it fails exactly when a field is missing or one of the two is not a u64.
   */
  lemma ParseInvertsStatLine(pid: nat, name: string, fields: seq<string>, end: string)
    requires StatFields(fields) && AllWhitespace(end)
    ensures ParseProcStat(StatLine(pid, name, fields, end)) ==
            if |fields| >= 13 && ParseU64(fields[11]).Some? && ParseU64(fields[12]).Some?
            then Some((name, ParseU64(fields[11]).value, ParseU64(fields[12]).value))
            else None
  {
    hide StatLine, Find, FindLast, SplitWhitespace, Join, ParseU64;
    var line, p := StatLine(pid, name, fields, end), |Decimal(pid)| + 1;
    StatParens(pid, name, fields, end);
    DropOne(line, p + 2 + |name|, Join(fields, " ") + end);
    SplitJoin(fields, end);
  }

  /** The kernel's own line: the two times printed in decimal come back as numbers. */
  lemma ParseReturnsTimes(pid: nat, name: string, fields: seq<string>, utime: U64, stime: U64)
    requires StatFields(fields) && |fields| >= 13
    requires fields[11] == Decimal(utime) && fields[12] == Decimal(stime)
    ensures ParseProcStat(StatLine(pid, name, fields, "\n")) == Some((name, utime, stime))
  {
    ParseDecimal(utime);
    ParseDecimal(stime);
    ParseInvertsStatLine(pid, name, fields, "\n");
  }

  lemma SplitAtTwo(s: string, i: nat, j: nat)
    requires i < j < |s|
    ensures s == s[..i] + ([s[i]] + (s[i + 1..j] + ([s[j]] + s[j + 1..])))
  {
    assert s[j..] == [s[j]] + s[j + 1..];
    assert s[i + 1..] == s[i + 1..j] + s[j..];
    assert s[i..] == [s[i]] + s[i + 1..];
    assert s == s[..i] + s[i..];
  }

  /** Nothing else is accepted: an accepted line splits around the name that was returned. */
  lemma ParseIsSound(stat: string) returns (before: string, after: string)
    requires ParseProcStat(stat).Some?
    ensures var (name, utime, stime) := ParseProcStat(stat).value;
            && stat == before + (['('] + (name + ([')'] + after)))
            && '(' !in before && ')' !in after && after != []
            && |SplitWhitespace(after[1..])| >= 13
            && ParseU64(SplitWhitespace(after[1..])[11]) == Some(utime)
            && ParseU64(SplitWhitespace(after[1..])[12]) == Some(stime)
  {
    hide SplitWhitespace, ParseU64, Find, FindLast;
    var start, end := Find(stat, '(').value, FindLast(stat, ')').value;
    before, after := stat[..start], stat[end + 1..];
    assert after[1..] == stat[end + 2..];
    var parts := SplitWhitespace(after[1..]);
    assert |parts| >= 13 && ParseProcStat(stat).value.0 == stat[start + 1..end];
    assert ParseU64(parts[11]) == Some(ParseProcStat(stat).value.1);
    assert ParseU64(parts[12]) == Some(ParseProcStat(stat).value.2);
    hide ParseProcStat;
    SplitAtTwo(stat, start, end);
  }
}
