/** The adaptive delay between probes: it doubles every second stable probe and resets on a change. */
module ProbeBackoff {
  import opened Machine

  const MAX_BACKOFF_SHIFT: nat := 6
  const NANOS_PER_MILLI: nat := 1_000_000

  /** Durations are counted in nanoseconds. */
  type Duration = nat

  function FromMillis(ms: U64): Duration {
    ms * NANOS_PER_MILLI
  }

  /** Milliseconds are cut to u64 after rounding down, and the product saturates. */
  function ScaleDuration(duration: Duration, multiplier: U64): Duration {
    var ms: U64 := Max(duration / NANOS_PER_MILLI, 1) % 0x1_0000_0000_0000_0000;
    FromMillis(SatMul(ms, Max(multiplier, 1)))
  }

  /** The length of the run of equal outcomes that ends a history. */
  function Run(h: seq<bool>): (r: nat)
    ensures r <= |h|
  {
    if |h| <= 1 then |h|
    else if h[|h| - 1] == h[|h| - 2] then 1 + Run(h[..|h| - 1])
    else 1
  }

  function Level(run: nat): (n: nat)
    ensures n <= 6
  {
    if run == 0 then 0 else Min((run - 1) / 2, MAX_BACKOFF_SHIFT)
  }

  lemma {:induction false} Pow2Monotone(a: nat, b: nat)
    requires a <= b
    ensures Pow2(a) <= Pow2(b)
    decreases b
  {
    if a < b {
      Pow2Monotone(a, b - 1);
    }
  }

  lemma LevelIsShort(level: nat)
    requires level <= 6
    ensures Pow2(level) <= 64
  {
    assert Pow2(6) == 64;
    Pow2Monotone(level, 6);
  }

  /** The delay as a function of the whole outcome history alone. */
  function Delay(base: Duration, max: Duration, h: seq<bool>): Duration {
    LevelIsShort(Level(Run(h)));
    Min(ScaleDuration(base, Pow2(Level(Run(h)))), max)
  }

  lemma RunStep(h: seq<bool>, outcome: bool)
    ensures Run(h + [outcome]) == if h != [] && h[|h| - 1] == outcome then Run(h) + 1 else 1
  {
    assert (h + [outcome])[..|h|] == h;
  }

  class AdaptiveProbeBackoff {
    var base: Duration
    var max: Duration
    var stableStreak: U32
    var lastOutcome: Option<bool>
    ghost var history: seq<bool>

    /** The 32-bit counter stands for the trailing run, up to saturation. */
    ghost predicate Valid()
      reads this
    {
      && 0 < base <= max
      && lastOutcome == (if history == [] then None else Some(history[|history| - 1]))
      && stableStreak == Min(Max(Run(history) - 1, 0), U32_MAX)
    }

    constructor (base: Duration, max: Duration)
      ensures Valid() && history == []
      ensures this.base == if base == 0 then FromMillis(250) else base
      ensures this.max == Max(max, this.base)
    {
      var b := if base == 0 then FromMillis(250) else base;
      this.base := b;
      this.max := Max(max, b);
      stableStreak := 0;
      lastOutcome := None;
      history := [];
    }

    method RecordOutcome(outcome: bool) returns (delay: Duration)
      requires Valid()
      modifies this
      ensures Valid()
      ensures base == old(base) && max == old(max) && history == old(history) + [outcome]
      ensures delay == Delay(base, max, history)
    {
      RunStep(history, outcome);
      if lastOutcome == Some(outcome) {
        stableStreak := if stableStreak < U32_MAX then stableStreak + 1 else U32_MAX;
      } else {
        stableStreak := 0;
        lastOutcome := Some(outcome);
      }
      history := history + [outcome];
      var level := Min(stableStreak / 2, MAX_BACKOFF_SHIFT);
      LevelIsShort(level);
      var multiplier: U64 := Pow2(level);
      delay := Min(ScaleDuration(base, multiplier), max);
    }
  }

  /** What `Run` counts: the last `r` outcomes agree, and the one before them, if any, differs. */
  lemma {:induction false} RunIsTrailing(h: seq<bool>)
    requires h != []
    ensures 0 < Run(h)
    ensures forall i :: |h| - Run(h) <= i < |h| ==> h[i] == h[|h| - 1]
    ensures Run(h) < |h| ==> h[|h| - Run(h) - 1] != h[|h| - 1]
  {
    if |h| > 1 && h[|h| - 1] == h[|h| - 2] {
      RunIsTrailing(h[..|h| - 1]);
    }
  }

  lemma ScaleWholeMillis(ms: U64, multiplier: U64)
    requires ms > 0 && multiplier > 0
    ensures ScaleDuration(FromMillis(ms), multiplier) == FromMillis(SatMul(ms, multiplier))
  {
    assert FromMillis(ms) / NANOS_PER_MILLI == ms;
  }

  lemma CapSaturated(a: U64, b: U64, max: U64)
    ensures Min(FromMillis(SatMul(a, b)), FromMillis(max)) == Min(FromMillis(max), FromMillis(a) * b)
  {
    var ab := a * b;
    assert FromMillis(a) * b == ab * NANOS_PER_MILLI;
  }

  lemma DelayUnfold(base: Duration, max: Duration, h: seq<bool>)
    requires h != []
    ensures 0 < Run(h)
    ensures var p := Pow2(Min((Run(h) - 1) / 2, 6));
            p <= 64 && Delay(base, max, h) == Min(ScaleDuration(base, p), max)
  {
    RunIsTrailing(h);
    hide Pow2, Run, ScaleDuration;
    LevelIsShort(Level(Run(h)));
  }

  /** Whole-millisecond settings: the delay is the base doubled once for every two repeats, six times at most. */
  lemma ClosedForm(baseMs: U64, maxMs: U64, h: seq<bool>)
    requires 0 < baseMs && h != []
    ensures 0 < Run(h)
    ensures Delay(FromMillis(baseMs), FromMillis(maxMs), h)
         == Min(FromMillis(maxMs), FromMillis(baseMs) * Pow2(Min((Run(h) - 1) / 2, 6)))
  {
    hide Pow2, Run, Delay, ScaleDuration, SatMul, FromMillis;
    DelayUnfold(FromMillis(baseMs), FromMillis(maxMs), h);
    var p := Pow2(Min((Run(h) - 1) / 2, 6));
    ScaleWholeMillis(baseMs, p);
    CapSaturated(baseMs, p, maxMs);
  }

  /** For every base of fewer than 2^64 milliseconds: rounded down to milliseconds, but to no less than one, then doubled. */
  lemma RoundedForm(base: Duration, max: Duration, h: seq<bool>)
    requires h != [] && base / 1_000_000 <= U64_MAX
    ensures 0 < Run(h)
    ensures var ms := if base < 1_000_000 then 1 else base / 1_000_000;
            var doubled := ms * Pow2(Min((Run(h) - 1) / 2, 6));
            Delay(base, max, h) == Min(max, 1_000_000 * (if doubled <= U64_MAX then doubled else U64_MAX))
  {
    DelayUnfold(base, max, h);
    hide Delay, Run, Pow2;
  }

  /** A base that rounding does not shorten: whole milliseconds that fit u64, or less than one of them. */
  predicate SurvivesRounding(base: Duration) {
    (base % NANOS_PER_MILLI == 0 && base / NANOS_PER_MILLI <= U64_MAX) || base < NANOS_PER_MILLI
  }

  lemma ScaleMonotone(base: Duration, p: U64, q: U64)
    requires 1 <= p <= q
    ensures ScaleDuration(base, p) <= ScaleDuration(base, q)
  {
    var ms := Max(base / NANOS_PER_MILLI, 1) % 0x1_0000_0000_0000_0000;
    assert ms * p <= ms * q;
  }

  lemma ScaleAtLeast(base: Duration, p: U64)
    requires 0 < base && SurvivesRounding(base) && p >= 1
    ensures base <= ScaleDuration(base, p)
  {
    ScaleMonotone(base, 1, p);
    assert base == base / NANOS_PER_MILLI * NANOS_PER_MILLI + base % NANOS_PER_MILLI;
  }

  lemma FirstDelayIsShort(base: Duration, max: Duration)
    requires 0 < base <= max && !SurvivesRounding(base)
    ensures Delay(base, max, [true]) < base
  {
    var ms := base / NANOS_PER_MILLI;
    assert Pow2(0) == 1 && Level(Run([true])) == 0;
    assert base == ms * NANOS_PER_MILLI + base % NANOS_PER_MILLI;
  }

  /** No delay exceeds the maximum, and none falls below the base if and only if rounding does not shorten the base. */
  lemma DelayBounds(base: Duration, max: Duration)
    requires 0 < base <= max
    ensures forall h: seq<bool> :: Delay(base, max, h) <= max
    ensures (forall h: seq<bool> :: h != [] ==> base <= Delay(base, max, h)) <==> SurvivesRounding(base)
  {
    if !SurvivesRounding(base) {
      FirstDelayIsShort(base, max);
    } else {
      forall h: seq<bool> | h != []
        ensures base <= Delay(base, max, h)
      {
        DelayUnfold(base, max, h);
        ScaleAtLeast(base, Pow2(Min((Run(h) - 1) / 2, 6)));
        hide Delay, Run, Pow2, ScaleDuration;
      }
    }
  }

  /** Repeating an outcome never shortens the delay, whatever the durations. */
  lemma DelayGrowsAlongRun(base: Duration, max: Duration, h: seq<bool>)
    requires h != []
    ensures Delay(base, max, h) <= Delay(base, max, h + [h[|h| - 1]])
  {
    RunStep(h, h[|h| - 1]);
    var a, b := Level(Run(h)), Level(Run(h) + 1);
    LevelIsShort(a);
    LevelIsShort(b);
    Pow2Monotone(a, b);
    ScaleMonotone(base, Pow2(a), Pow2(b));
  }

  /** A changed outcome brings the delay back to that of a fresh start. */
  lemma DelayResetsOnChange(base: Duration, max: Duration, h: seq<bool>, outcome: bool)
    requires h != [] && h[|h| - 1] != outcome
    ensures Delay(base, max, h + [outcome]) == Delay(base, max, [outcome])
  {
    RunStep(h, outcome);
  }

  /** After thirteen equal outcomes the delay no longer moves: a longer run, however long, changes nothing. */
  lemma DelaySettles(base: Duration, max: Duration, h: seq<bool>, g: seq<bool>)
    requires Run(h) >= 13 && Run(g) >= 13
    ensures Delay(base, max, h) == Delay(base, max, g) == Min(ScaleDuration(base, 64), max)
  {
    assert Pow2(6) == 64;
  }

  /**
   * The first delay is the base exactly for whole-millisecond bases that fit u64, and for bases below one
   * millisecond that are also the maximum: rounding to milliseconds shortens or lengthens every other base.
   */
  lemma FirstDelayIsBaseIff(base: Duration, max: Duration, outcome: bool)
    requires 0 < base <= max
    ensures Delay(base, max, [outcome]) == base <==>
              || (base % NANOS_PER_MILLI == 0 && base / NANOS_PER_MILLI <= U64_MAX)
              || (base < NANOS_PER_MILLI && max == base)
  {
    var ms := base / NANOS_PER_MILLI;
    assert Pow2(0) == 1 && Level(Run([outcome])) == 0;
    assert base == ms * NANOS_PER_MILLI + base % NANOS_PER_MILLI;
  }
}
