/** The string operations of the Rust standard library that the parsers use. */
module Text {
  import opened Machine

  /** Unicode White_Space, the class behind `trim` and `split_whitespace`. */
  predicate IsWhitespace(c: char) {
    || '\U{9}' <= c <= '\U{D}' || c == ' ' || c == '\U{85}' || c == '\U{A0}' || c == '\U{1680}'
    || '\U{2000}' <= c <= '\U{200A}' || c == '\U{2028}' || c == '\U{2029}' || c == '\U{202F}'
    || c == '\U{205F}' || c == '\U{3000}'
  }

  predicate AllWhitespace(s: string) {
    forall i :: 0 <= i < |s| ==> IsWhitespace(s[i])
  }

  predicate NoWhitespace(s: string) {
    forall i :: 0 <= i < |s| ==> !IsWhitespace(s[i])
  }

  // ---------------------------------------------------------------- searching

  function Find(s: string, c: char): (r: Option<nat>)
    ensures r.None? <==> c !in s
    ensures r.Some? ==> r.value < |s| && s[r.value] == c && c !in s[..r.value]
  {
    if s == [] then None
    else if s[0] == c then Some(0)
    else
      var rest := Find(s[1..], c);
      if rest.None? then None
      else
        assert s[..rest.value + 1] == [s[0]] + s[1..][..rest.value];
        Some(rest.value + 1)
  }

  function FindLast(s: string, c: char): (r: Option<nat>)
    ensures r.None? <==> c !in s
    ensures r.Some? ==> r.value < |s| && s[r.value] == c && c !in s[r.value + 1..]
  {
    if s == [] then None
    else if s[|s| - 1] == c then Some(|s| - 1)
    else
      var rest := FindLast(s[..|s| - 1], c);
      assert s == s[..|s| - 1] + [s[|s| - 1]];
      if rest.None? then None
      else
        assert s[rest.value + 1..] == s[..|s| - 1][rest.value + 1..] + [s[|s| - 1]];
        rest
  }

  lemma {:induction false} FindIs(s: string, c: char, i: nat)
    requires i < |s| && s[i] == c && c !in s[..i]
    ensures Find(s, c) == Some(i)
  {
    if i > 0 {
      assert s[..i] == [s[0]] + s[1..][..i - 1];
      FindIs(s[1..], c, i - 1);
    }
  }

  lemma {:induction false} FindLastIs(s: string, c: char, i: nat)
    requires i < |s| && s[i] == c && c !in s[i + 1..]
    ensures FindLast(s, c) == Some(i)
  {
    var front, last := s[..|s| - 1], s[|s| - 1];
    if i < |front| {
      assert s[i + 1..] == front[i + 1..] + [last];
      FindLastIs(front, c, i);
    }
  }

  lemma FindFirst(s: string, before: string, c: char, rest: string)
    requires s == before + ([c] + rest) && c !in before
    ensures Find(s, c) == Some(|before|)
  {
    assert s[..|before|] == before;
    FindIs(s, c, |before|);
  }

  lemma FindFinal(s: string, front: string, c: char, after: string)
    requires s == front + ([c] + after) && c !in after
    ensures FindLast(s, c) == Some(|front|)
  {
    assert s[|front| + 1..] == after;
    FindLastIs(s, c, |front|);
  }

  lemma NestedConcat(a: string, b: string, c: string, d: string)
    ensures a + (b + (c + d)) == (a + b + c) + d
  {
  }

  lemma NameSlice(s: string, before: string, name: string, after: string)
    requires s == (before + ['('] + name) + ([')'] + after)
    ensures |s| == |before| + |name| + 2 + |after|
    ensures s[|before| + 1..|before| + 1 + |name|] == name && s[|before| + 2 + |name|..] == after
  {
  }

  lemma FindClose(s: string, before: string, name: string, after: string)
    requires s == before + (['('] + (name + ([')'] + after))) && ')' !in after
    ensures FindLast(s, ')') == Some(|before| + 1 + |name|)
  {
    hide *;
    NestedConcat(before, ['('], name, [')'] + after);
    FindFinal(s, before + ['('] + name, ')', after);
  }

  /** The outermost parentheses are found whatever stands between them. */
  lemma FindParens(s: string, before: string, name: string, after: string)
    requires s == before + (['('] + (name + ([')'] + after)))
    requires '(' !in before && ')' !in after
    ensures |s| == |before| + |name| + 2 + |after|
    ensures Find(s, '(') == Some(|before|) && FindLast(s, ')') == Some(|before| + 1 + |name|)
    ensures s[|before| + 1..|before| + 1 + |name|] == name && s[|before| + 2 + |name|..] == after
  {
    hide *;
    FindFirst(s, before, '(', name + ([')'] + after));
    FindClose(s, before, name, after);
    NestedConcat(before, ['('], name, [')'] + after);
    NameSlice(s, before, name, after);
  }

  // ---------------------------------------------------------------- trimming

  function TrimStart(s: string): (r: string)
    ensures |r| <= |s|
    ensures r != [] ==> !IsWhitespace(r[0])
  {
    if s != [] && IsWhitespace(s[0]) then TrimStart(s[1..]) else s
  }

  function TrimEnd(s: string): (r: string)
    ensures |r| <= |s|
    ensures r <= s
    ensures r != [] ==> !IsWhitespace(r[|r| - 1])
  {
    if s != [] && IsWhitespace(s[|s| - 1]) then TrimEnd(s[..|s| - 1]) else s
  }

  function Trim(s: string): string {
    TrimEnd(TrimStart(s))
  }

  predicate Blank(s: string) {
    Trim(s) == []
  }

  /** Trimming leaves no whitespace at either end, and trimming again changes nothing. */
  lemma TrimIdempotent(s: string)
    ensures Trim(s) != [] ==> !IsWhitespace(Trim(s)[0]) && !IsWhitespace(Trim(s)[|Trim(s)| - 1])
    ensures Trim(Trim(s)) == Trim(s)
  {
    var t := TrimStart(s);
    assert TrimEnd(t) <= t;
  }

  /** `t` stands at `i` in `s`, with nothing but whitespace around it and none at its ends. */
  predicate TrimmedAt(s: string, t: string, i: nat) {
    && i + |t| <= |s| && s[i..i + |t|] == t
    && AllWhitespace(s[..i]) && AllWhitespace(s[i + |t|..])
    && (t != [] ==> !IsWhitespace(t[0]) && !IsWhitespace(t[|t| - 1]))
  }

  lemma {:induction false} TrimStartSplits(s: string)
    ensures |TrimStart(s)| <= |s| && s[|s| - |TrimStart(s)|..] == TrimStart(s)
    ensures AllWhitespace(s[..|s| - |TrimStart(s)|])
  {
    if s != [] && IsWhitespace(s[0]) {
      TrimStartSplits(s[1..]);
      var n := |s| - |TrimStart(s)|;
      assert s[..n] == [s[0]] + s[1..][..n - 1];
    }
  }

  lemma {:induction false} TrimEndSplits(s: string)
    ensures AllWhitespace(s[|TrimEnd(s)|..])
  {
    if s != [] && IsWhitespace(s[|s| - 1]) {
      TrimEndSplits(s[..|s| - 1]);
      var n := |TrimEnd(s)|;
      assert s[n..] == s[..|s| - 1][n..] + [s[|s| - 1]];
    }
  }

  /** Trimming removes outer whitespace, all of it, and nothing else. */
  lemma TrimIsTrimmed(s: string) returns (i: nat)
    ensures TrimmedAt(s, Trim(s), i)
  {
    TrimIdempotent(s);
    TrimStartSplits(s);
    TrimEndSplits(TrimStart(s));
    i := |s| - |TrimStart(s)|;
    var u, t := TrimStart(s), Trim(s);
    hide TrimStart, TrimEnd;
    assert t == u[..|t|];
    assert s[i..][|t|..] == s[i + |t|..] && s[i..][..|t|] == s[i..i + |t|];
  }

  /** There is only one such part, so a text is blank exactly when every character is whitespace. */
  lemma BlankIff(s: string)
    ensures Blank(s) <==> AllWhitespace(s)
  {
    var i := TrimIsTrimmed(s);
    var t := Trim(s);
    hide Trim;
    if t == [] {
      assert s == s[..i] + s[i..];
    } else {
      assert s[i] == t[0];
    }
  }

  // ---------------------------------------------------------------- fields

  /** The length of the first word of a string that starts with one. */
  function WordLength(s: string): (n: nat)
    ensures n <= |s| && NoWhitespace(s[..n])
    ensures n < |s| ==> IsWhitespace(s[n])
  {
    if s == [] || IsWhitespace(s[0]) then 0
    else
      var n := WordLength(s[1..]);
      assert s[..n + 1] == [s[0]] + s[1..][..n];
      n + 1
  }

  lemma {:induction false} WordLengthIs(s: string, n: nat)
    requires n <= |s| && NoWhitespace(s[..n])
    requires n < |s| ==> IsWhitespace(s[n])
    ensures WordLength(s) == n
  {
    if n > 0 {
      assert s[..n] == [s[0]] + s[1..][..n - 1];
      assert !IsWhitespace(s[..n][0]);
      WordLengthIs(s[1..], n - 1);
    }
  }

  /** The maximal runs of non-whitespace characters, in order. */
  function SplitWhitespace(s: string): seq<string>
    decreases |s|
  {
    if s == [] then []
    else if IsWhitespace(s[0]) then SplitWhitespace(s[1..])
    else [s[..WordLength(s)]] + SplitWhitespace(s[WordLength(s)..])
  }

  function Join(parts: seq<string>, separator: string): string {
    if parts == [] then ""
    else if |parts| == 1 then parts[0]
    else parts[0] + separator + Join(parts[1..], separator)
  }

  predicate AreFields(fields: seq<string>) {
    forall i :: 0 <= i < |fields| ==> fields[i] != [] && NoWhitespace(fields[i])
  }

  lemma {:induction false} SplitBlank(s: string)
    requires AllWhitespace(s)
    ensures SplitWhitespace(s) == []
  {
    if s != [] {
      SplitBlank(s[1..]);
    }
  }

  lemma SplitWord(word: string, rest: string)
    requires word != [] && NoWhitespace(word)
    requires rest != [] ==> IsWhitespace(rest[0])
    ensures SplitWhitespace(word + rest) == [word] + SplitWhitespace(rest)
  {
    assert (word + rest)[..|word|] == word;
    assert (word + rest)[|word|..] == rest;
    WordLengthIs(word + rest, |word|);
  }

  lemma SplitSpace(rest: string)
    ensures SplitWhitespace([' '] + rest) == SplitWhitespace(rest)
  {
    assert ([' '] + rest)[1..] == rest;
  }

  lemma JoinAssoc(a: string, b: string, c: string)
    ensures (a + " " + b) + c == a + ([' '] + (b + c))
  {
  }

  /** Splitting undoes joining, whatever whitespace follows the last field. */
  lemma {:induction false} SplitJoin(fields: seq<string>, end: string)
    requires AreFields(fields) && AllWhitespace(end)
    ensures SplitWhitespace(Join(fields, " ") + end) == fields
    decreases |fields|
  {
    if fields == [] {
      assert Join(fields, " ") + end == end;
      SplitBlank(end);
    } else if |fields| == 1 {
      SplitWord(fields[0], end);
      SplitBlank(end);
    } else {
      var word, rest := fields[0], Join(fields[1..], " ") + end;
      SplitJoin(fields[1..], end);
      hide AreFields, NoWhitespace, AllWhitespace, SplitWhitespace;
      assert Join(fields, " ") + end == word + ([' '] + rest) by {
        JoinAssoc(word, Join(fields[1..], " "), end);
      }
      SplitWord(word, [' '] + rest);
      SplitSpace(rest);
      assert fields == [word] + fields[1..];
    }
  }

  // ---------------------------------------------------------------- numbers

  predicate IsDigit(c: char) {
    '0' <= c <= '9'
  }

  function DigitValue(c: char): nat
    requires IsDigit(c)
  {
    (c - '0') as nat
  }

  predicate AllDigits(s: string) {
    forall i :: 0 <= i < |s| ==> IsDigit(s[i])
  }

  function Value(s: string): nat
    requires AllDigits(s)
  {
    if s == [] then 0 else 10 * Value(s[..|s| - 1]) + DigitValue(s[|s| - 1])
  }

  /** Rust's `parse::<u64>`: an optional plus sign, then one or more digits, within range. */
  function ParseU64(s: string): Option<U64> {
    var digits := if s != [] && s[0] == '+' then s[1..] else s;
    if digits != [] && AllDigits(digits) && Value(digits) <= U64_MAX then Some(Value(digits)) else None
  }

  function Digit(n: nat): (c: char)
    requires n < 10
    ensures IsDigit(c) && DigitValue(c) == n
  {
    '0' + n as char
  }

  lemma ValueSnoc(front: string, d: nat)
    requires AllDigits(front) && d < 10
    ensures AllDigits(front + [Digit(d)]) && Value(front + [Digit(d)]) == 10 * Value(front) + d
  {
    assert (front + [Digit(d)])[..|front|] == front;
  }

  lemma ValueOne(d: nat)
    requires d < 10
    ensures AllDigits([Digit(d)]) && Value([Digit(d)]) == d
  {
    assert [Digit(d)] == [] + [Digit(d)];
    ValueSnoc([], d);
  }

  function Decimal(n: nat): (s: string)
    ensures s != [] && AllDigits(s) && Value(s) == n
  {
    if n < 10 then
      ValueOne(n);
      [Digit(n)]
    else
      var front := Decimal(n / 10);
      ValueSnoc(front, n % 10);
      front + [Digit(n % 10)]
  }

  /** Numbers are written without leading zeros. */
  lemma {:induction false} DecimalIsCanonical(n: nat)
    ensures n > 0 ==> Decimal(n)[0] != '0'
    ensures n == 0 ==> Decimal(n) == "0"
  {
    if n >= 10 {
      DecimalIsCanonical(n / 10);
    }
  }

  lemma {:induction false} DecimalLength(n: nat, bits: nat)
    requires bits > 0 && n < Pow2(bits)
    ensures |Decimal(n)| <= bits
    decreases n
  {
    if n >= 10 {
      assert Pow2(1) == 2;
      DecimalLength(n / 10, bits - 1);
    }
  }

  lemma ParseDecimal(n: U64)
    ensures ParseU64(Decimal(n)) == Some(n)
    ensures NoWhitespace(Decimal(n)) && '(' !in Decimal(n) && ')' !in Decimal(n)
  {
    var s := Decimal(n);
    assert IsDigit(s[0]);
  }
}
