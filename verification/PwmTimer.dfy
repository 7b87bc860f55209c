/** The PWM output of timer A in drv_pwm.c: choosing the clock divider, converting nanoseconds to
    register values, and keeping period, compare values and forced levels consistent.

    Words are 32 bits; products are formed in 64 bits, which none of them exceeds. */
module PwmTimer {
  import opened Basics

  const NS: nat := 1_000_000_000
  const CHANNELS: nat := 8

  function Pow2(e: nat): (p: nat)
    ensures p >= 1
  {
    if e == 0 then 1 else 2 * Pow2(e - 1)
  }

  lemma QuotientNotNegative(a: nat, d: nat)
    requires 1 <= d
    ensures a / d >= 0
  {
    FloorBounds(a, d);
  }

  /** The clock behind divider 2^e. */
  function Divided(clk: nat, e: nat): nat {
    QuotientNotNegative(clk, Pow2(e));
    clk / Pow2(e)
  }

  /** Timer ticks in `ns` nanoseconds at frequency f. */
  function Ticks(ns: nat, f: nat): nat {
    ns * f / NS
  }

  /** The division a period needs so that it fits 16 bits, before rounding up to a power of two. */
  function Division(clk: nat, period: nat): nat {
    Ticks(period, clk) / 0xFFFF + 1
  }

  ghost predicate LeastExponent(d: nat, e: nat) {
    Pow2(e) >= d && (e > 0 ==> Pow2(e - 1) < d)
  }

  /** Some divider up to 1024 serves the period. */
  predicate Servable(clk: nat, period: nat) {
    Ticks(period, clk) != 0 && Division(clk, period) <= 1024
  }

  // ---------------------------------------------------------------------------------------------
  // Arithmetic
  // ---------------------------------------------------------------------------------------------

  lemma FloorBounds(a: nat, d: nat)
    requires 1 <= d
    ensures d * (a / d) <= a < d * (a / d) + d
  {
  }

  /** d is whole / p, rounded up. */
  ghost predicate RoundedUp(p: nat, d: nat, whole: nat) {
    p * (d - 1) < whole <= p * d
  }

  /** Halving upwards keeps the quotient by a power of two rounded up. */
  lemma Halve(p: nat, d: nat, whole: nat)
    requires 2 <= d && RoundedUp(p, d, whole)
    ensures RoundedUp(2 * p, d / 2 + d % 2, whole) && p < whole
  {
    MulLe(1, d - 1, p);
    var h := d / 2 + d % 2;
    assert d == 2 * h || d == 2 * h - 1;
    if d == 2 * h {
      assert 2 * p * (h - 1) == p * (d - 1) - p;
      assert 2 * p * h == p * d;
    } else {
      assert 2 * p * (h - 1) == p * (d - 1);
      assert 2 * p * h == p * d + p;
    }
  }

  /** At the chosen divider the clock is not zero and the period fits 16 bits with room to spare. */
  lemma DividerServes(clk: nat, period: nat, e: nat)
    requires 1 <= clk < WORD && period < WORD && Servable(clk, period)
    requires LeastExponent(Division(clk, period), e)
    ensures Divided(clk, e) >= 1
    ensures Ticks(period, Divided(clk, e)) <= 0xFFFE
  {
    var p, f := Pow2(e), Divided(clk, e);
    ClockNotZero(clk, period, e);
    FloorBounds(clk, p);
    FloorBounds(period * clk, NS);
    FloorBounds(Ticks(period, clk), 0xFFFF);
    var t := Ticks(period, clk);
    assert t + 1 <= 0xFFFF * p;
    ScaledBelow(period, f, p, clk, t);
    FloorAtLeast(period * f, NS, 0xFFFF);
  }

  lemma ScaledBelow(period: nat, f: nat, p: nat, clk: nat, t: nat)
    requires 1 <= p && p * f <= clk && period * clk < NS * t + NS && t + 1 <= 0xFFFF * p
    ensures period * f < 0xFFFF * NS
  {
    if period * f >= 0xFFFF * NS {
      MulLe(p * f, clk, period);
      MulLe(0xFFFF * NS, period * f, p);
      MulLe(t + 1, 0xFFFF * p, NS);
      Reorder(period, f, p, clk);
      assert false;
    }
  }

  lemma Reorder(period: nat, f: nat, p: nat, clk: nat)
    ensures period * f * p == p * f * period && clk * period == period * clk
  {
  }

  lemma ClockNotZero(clk: nat, period: nat, e: nat)
    requires 1 <= clk < WORD && period < WORD && LeastExponent(Division(clk, period), e)
    ensures Divided(clk, e) >= 1
  {
    if e > 0 {
      var t, half := Ticks(period, clk), Pow2(e - 1);
      FloorBounds(t, 0xFFFF);
      FloorBounds(period * clk, NS);
      assert 0xFFFF * half <= t;
      MulLe(period, WORD, clk);
      assert NS * (0xFFFF * half) <= WORD * clk;
      assert 2 * half <= clk;
      FloorAtLeast(clk, Pow2(e), 1);
    }
  }

  // ---------------------------------------------------------------------------------------------
  // Register values
  // ---------------------------------------------------------------------------------------------

  datatype Force = High | Low | Normal

  function PeriodReg(ticks: nat): nat {
    if ticks > 1 then ticks - 1 else 1
  }

  /** The compare value a period change derives from a stored pulse. */
  function Recomputed(ticks: nat, period: nat): nat {
    if ticks >= period then period else if ticks > 1 then ticks - 1 else ticks
  }

  /** The compare value setting the pulse derives. */
  function Direct(ticks: nat, period: nat): nat {
    var p := period + 1;
    if ticks > p then p - 1 else if ticks > 1 then ticks - 1 else ticks
  }

  function Level(period: nat, compare: nat): Force {
    if period + 1 == compare + 1 then High else if compare + 1 <= 1 then Low else Normal
  }

  function WordTicks(ns: nat, f: nat): (r: nat)
    ensures r < WORD
  {
    Ticks(ns, f) % WORD
  }

  /** The two ways of deriving a compare value differ by one tick at most, and exactly when the pulse
      is one tick short of the full period. */
  lemma RecomputeWithinOne(ticks: nat, period: nat)
    requires 1 <= period
    ensures Recomputed(ticks, period) <= period && Direct(ticks, period) <= period
    ensures Direct(ticks, period) <= Recomputed(ticks, period) <= Direct(ticks, period) + 1
    ensures Recomputed(ticks, period) != Direct(ticks, period) <==> ticks == period && 1 < ticks
  {
  }

  // ---------------------------------------------------------------------------------------------
  // Runs of control commands
  // ---------------------------------------------------------------------------------------------

  /** One timer unit: clock and configured channels, the registers, and the stored pulses.
      `settled` are the channels whose forced level has been computed at least once. */
  datatype Timer = Timer(clk: nat, channels: set<nat>, exponent: nat, period: nat, compare: seq<nat>,
                         force: seq<Force>, output: seq<bool>, pulse: seq<nat>, settled: set<nat>)

  datatype Command =
    | Enable(channel: nat, complementary: bool, on: bool)
    | Set(channel: nat, period: nat, pulse: nat)
    | SetPeriod(period: nat)
    | SetPulse(channel: nat, pulse: nat)

  predicate Legal(c: Command) {
    match c
    case Enable(ch, _, _) => ch < CHANNELS
    case Set(ch, period, pulse) => ch < CHANNELS && period < WORD && pulse < WORD
    case SetPeriod(period) => period < WORD
    case SetPulse(ch, pulse) => ch < CHANNELS && pulse < WORD
  }

  ghost predicate Shape(t: Timer) {
    && 1 <= t.clk < WORD
    && |t.compare| == |t.force| == |t.output| == |t.pulse| == CHANNELS
    && t.exponent <= 10 && Divided(t.clk, t.exponent) >= 1
  }

  function Freq(t: Timer): nat {
    Divided(t.clk, t.exponent)
  }

  ghost predicate Inv(t: Timer) {
    && Shape(t)
    && 1 <= t.period <= 0xFFFF
    && (forall ch :: 0 <= ch < CHANNELS && ch in t.channels ==> Follows(t, ch))
    && (forall ch :: 0 <= ch < CHANNELS && ch in t.channels && ch in t.settled ==>
          t.force[ch] == Level(t.period, t.compare[ch]))
  }

  /** The compare value is the one of the stored pulse at the present clock, by either derivation. */
  ghost predicate Follows(t: Timer, ch: nat)
    requires |t.compare| == |t.pulse| == CHANNELS && ch < CHANNELS
  {
    var ticks := WordTicks(t.pulse[ch], Freq(t));
    t.compare[ch] == Recomputed(ticks, t.period) || t.compare[ch] == Direct(ticks, t.period)
  }

  /** After initialisation: longest period, no division, nothing stored. */
  function Initial(clk: nat, channels: set<nat>): Timer {
    Timer(clk, channels, 0, 0xFFFF, seq(CHANNELS, i => 0), seq(CHANNELS, i => Normal),
          seq(CHANNELS, i => false), seq(CHANNELS, i => 0), {})
  }

  /** Nothing changes in a period change but divider, period, and the compare value and level of the
      configured channels, which follow their stored pulses. */
  ghost predicate PeriodChanged(t: Timer, period: nat, t': Timer)
    requires Shape(t)
  {
    && Shape(t')
    && LeastExponent(Division(t.clk, period), t'.exponent)
    && t'.period == PeriodReg(Ticks(period, Divided(t.clk, t'.exponent)))
    && t'.clk == t.clk && t'.channels == t.channels && t'.output == t.output && t'.pulse == t.pulse
    && t'.settled == t.settled + t.channels
    && (forall ch :: 0 <= ch < CHANNELS ==>
          if ch in t.channels then
            && t'.compare[ch] == Recomputed(WordTicks(t.pulse[ch], Freq(t')), t'.period)
            && t'.force[ch] == Level(t'.period, t'.compare[ch])
          else t'.compare[ch] == t.compare[ch] && t'.force[ch] == t.force[ch])
  }

  function PulseSet(t: Timer, ch: nat, pulse: nat): Timer
    requires Shape(t) && ch < CHANNELS
  {
    var compare := Direct(WordTicks(pulse, Freq(t)), t.period);
    t.(compare := t.compare[ch := compare], force := t.force[ch := Level(t.period, compare)],
       pulse := t.pulse[ch := pulse], settled := t.settled + {ch})
  }

  ghost predicate PeriodStep(t: Timer, period: nat, t': Timer)
    requires Shape(t)
  {
    if Servable(t.clk, period) then PeriodChanged(t, period, t') else t' == t
  }

  /** One control command. A combined set goes on to the pulse even if its period was refused. */
  ghost predicate Next(t: Timer, c: Command, t': Timer)
    requires Shape(t) && Legal(c)
  {
    match c
    case Enable(ch, complementary, on) =>
      if complementary then t' == t
      else t' == t.(force := t.force[ch := Level(t.period, t.compare[ch])],
                    output := t.output[ch := on], settled := t.settled + {ch})
    case SetPeriod(period) => PeriodStep(t, period, t')
    case SetPulse(ch, pulse) => t' == PulseSet(t, ch, pulse)
    case Set(ch, period, pulse) =>
      exists mid :: Shape(mid) && PeriodStep(t, period, mid) && t' == PulseSet(mid, ch, pulse)
  }

  lemma InitialInv(clk: nat, channels: set<nat>)
    requires 1 <= clk < WORD
    ensures Inv(Initial(clk, channels))
  {
    assert clk / 1 == clk;
    assert forall f: nat :: WordTicks(0, f) == 0;
  }

  lemma PeriodKeeps(t: Timer, period: nat, t': Timer)
    requires Inv(t) && period < WORD && Servable(t.clk, period) && PeriodChanged(t, period, t')
    ensures Inv(t') && t.channels <= t'.settled && t'.period <= 0xFFFD
  {
    DividerServes(t.clk, period, t'.exponent);
  }

  /** The level is forced high exactly at full and low exactly at zero duty. */
  predicate ForcedRight(t: Timer, ch: nat) {
    && ch < |t.compare| && ch < |t.force|
    && (t.force[ch] == High <==> t.compare[ch] == t.period)
    && (t.force[ch] == Low <==> t.compare[ch] == 0)
  }

  /** The period in nanoseconds that reading the configuration back computes from the registers. */
  function ReadPeriod(t: Timer): int
    requires Freq(t) >= 1
  {
    NS * (t.period + 1) / Freq(t)
  }

  /** What is read back never exceeds the request, and is short by less than one tick and one
      nanosecond; a request of a single tick is the exception, the register holds no less than two. */
  lemma PeriodReadBack(t: Timer, period: nat, t': Timer)
    requires Inv(t) && period < WORD && Servable(t.clk, period) && PeriodChanged(t, period, t')
    ensures Ticks(period, Freq(t')) >= 2 ==>
              ReadPeriod(t') <= period && (period - ReadPeriod(t') - 1) * Freq(t') < NS
    ensures Ticks(period, Freq(t')) < 2 ==> t'.period + 1 == 2
  {
    RoundTrip(period, Freq(t'));
  }

  /** Converting to whole ticks and back rounds down, by less than a tick and a nanosecond. */
  lemma RoundTrip(ns: nat, f: nat)
    requires 1 <= f
    ensures var got := NS * Ticks(ns, f) / f; got <= ns && (ns - got - 1) * f < NS
  {
    var ticks := Ticks(ns, f);
    var got := NS * ticks / f;
    FloorBounds(ns * f, NS);
    FloorAtLeast(NS * ticks, f, ns + 1);
    MulSucc(ns, f);
    FloorBounds(NS * ticks, f);
    Difference(ns, got, f);
  }

  /** A pulse of two ticks up to the whole period is read back like a period; a longer one is full duty,
      none at all is zero duty, and a single tick is widened to two. */
  lemma PulseReadBack(t: Timer, ch: nat, pulse: nat)
    requires Inv(t) && ch < CHANNELS
    ensures var t', f := PulseSet(t, ch, pulse), Freq(t);
            var ticks, got := WordTicks(pulse, f), NS * (t'.compare[ch] + 1) / f;
            && (2 <= ticks <= t.period + 1 && Ticks(pulse, f) < WORD ==> got <= pulse && (pulse - got - 1) * f < NS)
            && (ticks > t.period + 1 ==> t'.compare[ch] == t.period)
            && (ticks == 0 ==> t'.compare[ch] == 0)
            && (ticks == 1 ==> t'.compare[ch] + 1 == 2)
  {
    RoundTrip(pulse, Freq(t));
  }

  /** The pulse in nanoseconds that reading the configuration back computes. */
  function ReadPulse(t: Timer, ch: nat): int
    requires Freq(t) >= 1 && ch < |t.compare|
  {
    NS * (t.compare[ch] + 1) / Freq(t)
  }

  /** `got` is `ns` rounded down, by less than a tick of frequency f and a nanosecond. */
  predicate RoundedDown(ns: nat, got: int, f: nat) {
    got <= ns && (ns - got - 1) * f < 1_000_000_000
  }

  /** The period registers show a request: the least divider serves it, and what is read back is the
      request rounded down; the register holds no less than two ticks. */
  ghost predicate ShowsPeriod(t: Timer, period: nat)
    requires Shape(t)
  {
    var ticks := period * Freq(t) / 1_000_000_000;
    && LeastDivider(Ticks(period, t.clk), t.exponent)
    && (ticks >= 2 ==> RoundedDown(period, ReadPeriod(t), Freq(t)))
    && (ticks < 2 ==> t.period == 1)
  }

  /** The compare register of a channel shows a request at the present clock and period: rounded down
      like a period, at most the whole period, zero for less than a tick, two ticks for one. */
  ghost predicate ShowsPulse(t: Timer, ch: nat, pulse: nat)
    requires Shape(t) && ch < CHANNELS
  {
    var whole := pulse * Freq(t) / 1_000_000_000;
    var ticks := whole % WORD;
    && t.pulse[ch] == pulse
    && (2 <= ticks <= t.period + 1 && whole < WORD ==> RoundedDown(pulse, ReadPulse(t, ch), Freq(t)))
    && (ticks > t.period + 1 ==> t.compare[ch] == t.period)
    && (ticks == 0 ==> t.compare[ch] == 0)
    && (ticks == 1 ==> t.compare[ch] == 1)
    && ForcedRight(t, ch)
  }

  /** The divider 2^e is the least at which so many ticks of the undivided clock fit 16 bits. */
  ghost predicate LeastDivider(ticks: nat, e: nat) {
    ticks < 0xFFFF * Pow2(e) && (e > 0 ==> 0xFFFF * Pow2(e - 1) <= ticks)
  }

  lemma DividerExactly(ticks: nat, e: nat)
    ensures LeastExponent(ticks / 0xFFFF + 1, e) <==> LeastDivider(ticks, e)
    ensures ticks / 0xFFFF + 1 <= 1024 <==> ticks < 0xFFFF * 1024
  {
    FloorBounds(ticks, 0xFFFF);
  }

  lemma PeriodShows(t: Timer, period: nat, t': Timer)
    requires Inv(t) && period < WORD && Servable(t.clk, period) && PeriodChanged(t, period, t')
    ensures ShowsPeriod(t', period)
  {
    DividerExactly(Ticks(period, t.clk), t'.exponent);
    PeriodReadBack(t, period, t');
  }

  lemma PulseShows(t: Timer, ch: nat, pulse: nat)
    requires Inv(t) && ch < CHANNELS
    ensures ShowsPulse(PulseSet(t, ch, pulse), ch, pulse)
  {
    PulseReadBack(t, ch, pulse);
    RecomputeWithinOne(WordTicks(pulse, Freq(t)), t.period);
  }

  /** What a timer keeps through any command. */
  predicate SameDevice(t: Timer, t': Timer) {
    t'.clk == t.clk && t'.channels == t.channels
  }

  predicate SamePeriod(t: Timer, t': Timer) {
    t'.period == t.period && t'.exponent == t.exponent
  }

  ghost predicate SameChannel(t: Timer, t': Timer, ch: nat)
    requires Shape(t) && Shape(t') && ch < CHANNELS
  {
    t'.compare[ch] == t.compare[ch] && t'.force[ch] == t.force[ch]
  }

  /** A period change makes the channels of the mask follow their pulses and leaves the others. */
  ghost predicate Refreshed(t: Timer, t': Timer, ch: nat)
    requires Shape(t) && Shape(t') && ch < CHANNELS
  {
    if ch in t.channels then Follows(t', ch) && ForcedRight(t', ch) else SameChannel(t, t', ch)
  }

  /** The request fits some divider: at least one tick, and fewer than 65535 at divider 1024. */
  predicate Fits(t: Timer, period: nat) {
    1 <= period * t.clk / 1_000_000_000 < 0xFFFF * 1024
  }

  /** What each command does, in terms of what can be read back. */
  ghost predicate Does(t: Timer, c: Command, t': Timer)
    requires Shape(t) && Shape(t') && Legal(c)
  {
    match c
    case Enable(ch, complementary, on) =>
      if complementary then t' == t
      else
        && SamePeriod(t, t') && t'.compare == t.compare && t'.pulse == t.pulse
        && t'.output == t.output[ch := on] && ForcedRight(t', ch)
        && forall d :: 0 <= d < CHANNELS && d != ch ==> t'.force[d] == t.force[d]
    case SetPeriod(period) =>
      && t'.pulse == t.pulse && t'.output == t.output
      && if Fits(t, period) then ShowsPeriod(t', period) && forall d :: 0 <= d < CHANNELS ==> Refreshed(t, t', d)
         else t' == t
    case SetPulse(ch, pulse) =>
      && SamePeriod(t, t') && t'.output == t.output
      && t'.pulse == t.pulse[ch := pulse] && ShowsPulse(t', ch, pulse)
      && forall d :: 0 <= d < CHANNELS && d != ch ==> SameChannel(t, t', d)
    case Set(ch, period, pulse) =>
      && t'.output == t.output
      && t'.pulse == t.pulse[ch := pulse] && ShowsPulse(t', ch, pulse)
      && (if Fits(t, period) then ShowsPeriod(t', period) else SamePeriod(t, t'))
      && forall d :: 0 <= d < CHANNELS && d != ch ==>
           if Fits(t, period) then Refreshed(t, t', d) else SameChannel(t, t', d)
  }

  lemma FitsServable(t: Timer, period: nat)
    ensures Fits(t, period) <==> Servable(t.clk, period)
  {
    DividerExactly(Ticks(period, t.clk), 0);
  }

  /** Every command does what it says; a combined set sets its pulse even if its period is refused. */
  lemma CommandDoes(t: Timer, c: Command, t': Timer)
    requires Inv(t) && Legal(c) && Next(t, c, t')
    ensures Shape(t') && SameDevice(t, t') && Does(t, c, t')
  {
    match c
    case Enable(_, _, _) =>
    case SetPeriod(period) =>
      FitsServable(t, period);
      if Fits(t, period) {
        PeriodShows(t, period, t');
      }
    case SetPulse(ch, pulse) => PulseShows(t, ch, pulse);
    case Set(ch, period, pulse) => SetDoes(t, ch, period, pulse, t');
  }

  lemma SetDoes(t: Timer, ch: nat, period: nat, pulse: nat, t': Timer)
    requires Inv(t) && Legal(Set(ch, period, pulse)) && Next(t, Set(ch, period, pulse), t')
    ensures Shape(t') && SameDevice(t, t') && Does(t, Set(ch, period, pulse), t')
  {
    var mid :| Shape(mid) && PeriodStep(t, period, mid) && t' == PulseSet(mid, ch, pulse);
    FitsServable(t, period);
    if Fits(t, period) {
      PeriodShows(t, period, mid);
      PeriodKeeps(t, period, mid);
      PulseLeaves(t, mid, ch, period, pulse);
    }
    PulseShows(mid, ch, pulse);
  }

  /** Setting one pulse leaves the period and the other channels as a period change left them. */
  lemma PulseLeaves(t: Timer, mid: Timer, ch: nat, period: nat, pulse: nat)
    requires Shape(t) && Inv(mid) && ch < CHANNELS && PeriodChanged(t, period, mid) && ShowsPeriod(mid, period)
    ensures var t' := PulseSet(mid, ch, pulse);
            && Shape(t') && ShowsPeriod(t', period)
            && forall d :: 0 <= d < CHANNELS && d != ch ==> Refreshed(t, t', d)
  {
    forall d | 0 <= d < CHANNELS && d != ch ensures Refreshed(t, PulseSet(mid, ch, pulse), d) {
      assert d in t.channels ==> Follows(mid, d);
    }
  }

  lemma Difference(period: int, got: int, f: int)
    ensures (period - got - 1) * f == period * f - f * got - f
  {
  }

  lemma PulseKeeps(t: Timer, ch: nat, pulse: nat)
    requires Inv(t) && ch < CHANNELS
    ensures Inv(PulseSet(t, ch, pulse))
  {
    var t' := PulseSet(t, ch, pulse);
    forall c | 0 <= c < CHANNELS && c in t.channels ensures Follows(t', c) {
      assert Follows(t, c);
    }
  }

  lemma StepKeeps(t: Timer, c: Command, t': Timer)
    requires Inv(t) && Legal(c) && Next(t, c, t')
    ensures Inv(t') && t.settled <= t'.settled && t'.channels == t.channels && t'.clk == t.clk
  {
    match c
    case Enable(_, _, _) =>
      forall ch | 0 <= ch < CHANNELS && ch in t.channels ensures Follows(t', ch) {
        assert Follows(t, ch);
      }
    case SetPeriod(period) =>
      if Servable(t.clk, period) {
        PeriodKeeps(t, period, t');
      }
    case SetPulse(ch, pulse) =>
      PulseKeeps(t, ch, pulse);
    case Set(ch, period, pulse) =>
      var mid :| Shape(mid) && PeriodStep(t, period, mid) && t' == PulseSet(mid, ch, pulse);
      if Servable(t.clk, period) {
        PeriodKeeps(t, period, mid);
      }
      PulseKeeps(mid, ch, pulse);
  }

  ghost predicate IsRun(ts: seq<Timer>, cs: seq<Command>) {
    && |ts| == |cs| + 1
    && forall i :: 0 <= i < |cs| ==> Shape(ts[i]) && Legal(cs[i]) && Next(ts[i], cs[i], ts[i + 1])
  }

  lemma {:induction false} RunInv(ts: seq<Timer>, cs: seq<Command>, clk: nat, channels: set<nat>, n: nat)
    requires 1 <= clk < WORD && IsRun(ts, cs) && ts[0] == Initial(clk, channels) && n < |ts|
    ensures Inv(ts[n]) && ts[n].channels == channels && ts[n].clk == clk
  {
    if n == 0 {
      InitialInv(clk, channels);
    } else {
      RunInv(ts, cs, clk, channels, n - 1);
      StepKeeps(ts[n - 1], cs[n - 1], ts[n]);
    }
  }

  /** Over every run of commands: the period register is at least 1 and fits 16 bits, every configured
      channel's compare value is within the period and is that of its stored pulse, and every settled
      channel is forced high exactly at full and low exactly at zero duty. */
  lemma RunKeeps(ts: seq<Timer>, cs: seq<Command>, clk: nat, channels: set<nat>, n: nat)
    requires 1 <= clk < WORD && IsRun(ts, cs) && ts[0] == Initial(clk, channels) && n < |ts|
    ensures Inv(ts[n])
    ensures forall ch :: 0 <= ch < CHANNELS && ch in channels ==> ts[n].compare[ch] <= ts[n].period
    ensures forall ch :: 0 <= ch < CHANNELS && ch in channels && ch in ts[n].settled ==>
              && (ts[n].force[ch] == High <==> ts[n].compare[ch] == ts[n].period)
              && (ts[n].force[ch] == Low <==> ts[n].compare[ch] == 0)
    ensures ts[n].channels == channels && ts[n].clk == clk
  {
    RunInv(ts, cs, clk, channels, n);
    forall ch | 0 <= ch < CHANNELS && ch in channels ensures ts[n].compare[ch] <= ts[n].period {
      assert Follows(ts[n], ch);
      RecomputeWithinOne(WordTicks(ts[n].pulse[ch], Freq(ts[n])), ts[n].period);
    }
  }

  /** The period a command asks for. */
  function PeriodOf(c: Command): Option<nat> {
    match c
    case SetPeriod(period) => Some(period)
    case Set(_, period, _) => Some(period)
    case _ => None
  }

  lemma NextSettled(t: Timer, c: Command, t': Timer)
    requires Shape(t) && Legal(c) && Next(t, c, t')
    ensures t.settled <= t'.settled
    ensures PeriodOf(c).Some? && Servable(t.clk, PeriodOf(c).value) ==> t.channels <= t'.settled
  {
    if c.Set? {
      var mid :| Shape(mid) && PeriodStep(t, c.period, mid) && t' == PulseSet(mid, c.channel, c.pulse);
    }
  }

  lemma {:induction false} SettledGrows(ts: seq<Timer>, cs: seq<Command>, k: nat, n: nat)
    requires IsRun(ts, cs) && k <= n < |ts|
    ensures ts[k].settled <= ts[n].settled
  {
    if k < n {
      SettledGrows(ts, cs, k, n - 1);
      NextSettled(ts[n - 1], cs[n - 1], ts[n]);
    }
  }

  /** After the first command whose period could be served, every configured channel is forced high
      exactly at full and low exactly at zero duty, whatever came before and comes after. */
  lemma ForcedExactly(ts: seq<Timer>, cs: seq<Command>, clk: nat, channels: set<nat>, k: nat, n: nat, ch: nat)
    requires 1 <= clk < WORD && IsRun(ts, cs) && ts[0] == Initial(clk, channels) && k < n < |ts|
    requires PeriodOf(cs[k]).Some? && Servable(clk, PeriodOf(cs[k]).value)
    requires ch < CHANNELS && ch in channels
    ensures Inv(ts[n])
    ensures ts[n].force[ch] == High <==> ts[n].compare[ch] == ts[n].period
    ensures ts[n].force[ch] == Low <==> ts[n].compare[ch] == 0
  {
    RunInv(ts, cs, clk, channels, k);
    NextSettled(ts[k], cs[k], ts[k + 1]);
    SettledGrows(ts, cs, k + 1, n);
    RunKeeps(ts, cs, clk, channels, n);
  }

  // ---------------------------------------------------------------------------------------------
  // Channels outside the mask
  // ---------------------------------------------------------------------------------------------

  /** The commands take any channel, but a period change recomputes only those of the device's mask. It
      keeps a compare value within the period exactly for those, and for values that happen to fit. */
  lemma PeriodFits(t: Timer, period: nat, t': Timer, ch: nat)
    requires Shape(t) && PeriodChanged(t, period, t') && ch < CHANNELS
    ensures t'.compare[ch] <= t'.period <==> ch in t.channels || t.compare[ch] <= t'.period
  {
  }

  ghost predicate RunTo(ts: seq<Timer>, cs: seq<Command>, clk: nat, channels: set<nat>, n: nat) {
    IsRun(ts, cs) && ts[0] == Initial(clk, channels) && n < |ts|
  }

  /** The compare value is within the period. */
  predicate Within(t: Timer, ch: nat) {
    ch < |t.compare| && t.compare[ch] <= t.period
  }

  predicate Enabled(t: Timer, ch: nat) {
    ch < |t.output| && t.output[ch]
  }

  /** Some command before state n asked for a period that could be served. */
  ghost predicate PeriodServed(cs: seq<Command>, clk: nat, n: nat) {
    exists k :: 0 <= k < n && k < |cs| && PeriodOf(cs[k]).Some? && Servable(clk, PeriodOf(cs[k]).value)
  }

  /** The least period of at least one tick. */
  function LeastPeriod(clk: nat): nat
    requires 1 <= clk
  {
    QuotientNotNegative(NS + clk - 1, clk);
    (NS + clk - 1) / clk
  }

  lemma LeastTicks(clk: nat)
    requires 1 <= clk < WORD
    ensures var p := LeastPeriod(clk);
            && 1 <= p <= NS && NS <= p * clk < NS + clk
            && 1 <= Ticks(p, clk) <= 5 && 4 * Ticks(p, clk) <= Ticks(4 * p, clk) <= 21
  {
    var p := LeastPeriod(clk);
    FloorBounds(NS + clk - 1, clk);
    FloorAtLeast(NS + clk - 1, clk, 1);
    FloorAtLeast(NS + clk - 1, clk, NS + 1);
    MulSucc(NS, clk);
    assert 4 * p * clk == 4 * (p * clk);
  }

  /** A period of few ticks needs no division. */
  lemma ShortPeriod(t: Timer, period: nat) returns (t': Timer)
    requires Shape(t) && 1 <= Ticks(period, t.clk) <= 21
    ensures Servable(t.clk, period) && PeriodChanged(t, period, t')
    ensures t'.exponent == 0 && t'.period == PeriodReg(Ticks(period, t.clk))
  {
    var reg := PeriodReg(Ticks(period, t.clk));
    assert t.clk / 1 == t.clk;
    var compare := seq(CHANNELS, ch requires 0 <= ch < CHANNELS =>
      if ch in t.channels then Recomputed(WordTicks(t.pulse[ch], t.clk), reg) else t.compare[ch]);
    var force := seq(CHANNELS, ch requires 0 <= ch < CHANNELS =>
      if ch in t.channels then Level(reg, compare[ch]) else t.force[ch]);
    t' := t.(exponent := 0, period := reg, compare := compare, force := force, settled := t.settled + t.channels);
  }

  /** A pulse of a few ticks, then enabling the channel. */
  lemma PulseEnabled(t: Timer, ch: nat, pulse: nat) returns (t1: Timer, t2: Timer)
    requires Shape(t) && t.exponent == 0 && ch < CHANNELS && pulse < WORD && 4 <= Ticks(pulse, t.clk) <= 21
    ensures Shape(t1) && Next(t, SetPulse(ch, pulse), t1) && Next(t1, Enable(ch, false, true), t2)
    ensures Shape(t2) && t2.clk == t.clk && t2.channels == t.channels && t2.period == t.period && Enabled(t2, ch)
    ensures t2.compare[ch] == Direct(Ticks(pulse, t.clk), t.period) && t2.force[ch] == Level(t.period, t2.compare[ch])
  {
    assert t.clk / 1 == t.clk;
    t1 := PulseSet(t, ch, pulse);
    t2 := t1.(force := t1.force[ch := Level(t1.period, t1.compare[ch])], output := t1.output[ch := true],
              settled := t1.settled + {ch});
  }

  lemma InitialShape(clk: nat, channels: set<nat>)
    requires 1 <= clk < WORD
    ensures Shape(Initial(clk, channels))
  {
    assert clk / 1 == clk;
  }

  /** A run at any clock that leaves an enabled channel outside the mask with a compare value above the
      period: a pulse, enabling the channel, then a shorter period. */
  lemma UnmaskedRun(clk: nat, channels: set<nat>, ch: nat) returns (ts: seq<Timer>, cs: seq<Command>)
    requires 1 <= clk < WORD && ch < CHANNELS && ch !in channels
    ensures cs == [SetPulse(ch, 4 * LeastPeriod(clk)), Enable(ch, false, true), SetPeriod(LeastPeriod(clk))]
    ensures RunTo(ts, cs, clk, channels, 3) && Enabled(ts[3], ch) && !Within(ts[3], ch)
  {
    var p, t0 := LeastPeriod(clk), Initial(clk, channels);
    LeastTicks(clk);
    InitialShape(clk, channels);
    var t1, t2 := PulseEnabled(t0, ch, 4 * p);
    var t3 := ShortPeriod(t2, p);
    ts, cs := [t0, t1, t2, t3], [SetPulse(ch, 4 * p), Enable(ch, false, true), SetPeriod(p)];
  }

  /** A run at any clock that leaves such a channel forced high although its duty is no longer full. */
  lemma StaleForceRun(clk: nat, channels: set<nat>, ch: nat) returns (ts: seq<Timer>, cs: seq<Command>)
    requires 1 <= clk < WORD && ch < CHANNELS && ch !in channels
    ensures cs == [SetPeriod(LeastPeriod(clk)), SetPulse(ch, 4 * LeastPeriod(clk)), Enable(ch, false, true),
                   SetPeriod(4 * LeastPeriod(clk))]
    ensures RunTo(ts, cs, clk, channels, 4) && Enabled(ts[4], ch) && PeriodServed(cs, clk, 4)
    ensures Shape(ts[4]) && ts[4].force[ch] == High && ts[4].compare[ch] < ts[4].period
  {
    var p, t0 := LeastPeriod(clk), Initial(clk, channels);
    LeastTicks(clk);
    InitialShape(clk, channels);
    var t1 := ShortPeriod(t0, p);
    var t2, t3 := PulseEnabled(t1, ch, 4 * p);
    var t4 := ShortPeriod(t3, 4 * p);
    cs := [SetPeriod(p), SetPulse(ch, 4 * p), Enable(ch, false, true), SetPeriod(4 * p)];
    ts := [t0, t1, t2, t3, t4];
    assert PeriodOf(cs[0]).Some? && Servable(clk, PeriodOf(cs[0]).value);
  }

  /** Over every run from the start, an enabled channel keeps its compare value within the period, exactly
      if the channel is in the device's mask. */
  lemma WithinExactly(clk: nat, channels: set<nat>, ch: nat)
    requires 1 <= clk < WORD && ch < CHANNELS
    ensures (forall ts, cs, n: nat :: RunTo(ts, cs, clk, channels, n) && Enabled(ts[n], ch) ==> Within(ts[n], ch))
            <==> ch in channels
  {
    if ch in channels {
      forall ts, cs, n: nat | RunTo(ts, cs, clk, channels, n) ensures Within(ts[n], ch) {
        RunKeeps(ts, cs, clk, channels, n);
      }
    } else {
      var ts, cs := UnmaskedRun(clk, channels, ch);
    }
  }

  /** And exactly then its forced level is right in every state after a served period. */
  lemma ForcedRightExactly(clk: nat, channels: set<nat>, ch: nat)
    requires 1 <= clk < WORD && ch < CHANNELS
    ensures (forall ts, cs, n: nat ::
               RunTo(ts, cs, clk, channels, n) && PeriodServed(cs, clk, n) && Enabled(ts[n], ch) ==>
                 ForcedRight(ts[n], ch))
            <==> ch in channels
  {
    if ch in channels {
      forall ts, cs, n: nat | RunTo(ts, cs, clk, channels, n) && PeriodServed(cs, clk, n)
        ensures ForcedRight(ts[n], ch)
      {
        var k :| 0 <= k < n && k < |cs| && PeriodOf(cs[k]).Some? && Servable(clk, PeriodOf(cs[k]).value);
        ForcedExactly(ts, cs, clk, channels, k, n, ch);
      }
    } else {
      var ts, cs := StaleForceRun(clk, channels, ch);
    }
  }

  // ---------------------------------------------------------------------------------------------
  // The driver
  // ---------------------------------------------------------------------------------------------

  /** The halving loop: the least exponent whose power of two covers the division, or 11 if none up to 10 does. */
  method FindExponent(division: nat) returns (i: nat)
    requires 1 <= division
    ensures division <= 1024 ==> i <= 10 && LeastExponent(division, i)
    ensures division > 1024 ==> i == 11
  {
    var d := division;
    i := 0;
    PowTen();
    while i <= 10
      invariant i <= 11 && 1 <= d
      invariant RoundedUp(Pow2(i), d, division)
      invariant i > 0 ==> Pow2(i - 1) < division
    {
      if d == 1 {
        PowMonotone(i, 10);
        return;
      }
      Halve(Pow2(i), d, division);
      d := d / 2 + d % 2;
      i := i + 1;
    }
  }

  lemma {:induction false} PowMonotone(a: nat, b: nat)
    requires a <= b
    ensures Pow2(a) <= Pow2(b)
  {
    if a < b {
      PowMonotone(a, b - 1);
    }
  }

  lemma PowTen()
    ensures Pow2(10) == 1024
  {
    assert Pow2(5) == 32;
  }

  class TimerA {
    const clk: nat
    const channels: set<nat>
    var exponent: nat
    var period: nat
    var compare: array<nat>
    var force: array<Force>
    var output: array<bool>
    var pulse: array<nat>
    ghost var settled: set<nat>

    ghost function View(): Timer
      reads this, compare, force, output, pulse
    {
      Timer(clk, channels, exponent, period, compare[..], force[..], output[..], pulse[..], settled)
    }

    ghost predicate Valid()
      reads this, compare, force, output, pulse
    {
      Shape(View()) && compare != pulse
    }

    constructor (clk: nat, channels: set<nat>)
      requires 1 <= clk < WORD
      ensures Valid() && View() == Initial(clk, channels)
      ensures exponent == 0 && period == 0xFFFF
      ensures forall ch :: 0 <= ch < 8 ==> compare[ch] == pulse[ch] == 0 && !output[ch] && force[ch] == Normal
      ensures fresh(compare) && fresh(force) && fresh(output) && fresh(pulse)
    {
      this.clk, this.channels := clk, channels;
      exponent, period, settled := 0, 0xFFFF, {};
      compare := new nat[CHANNELS](_ => 0);
      force := new Force[CHANNELS](_ => Normal);
      output := new bool[CHANNELS](_ => false);
      pulse := new nat[CHANNELS](_ => 0);
      new;
      InitialInv(clk, channels);
      assert View() == Initial(clk, channels);
    }

    /** Choose and program the clock divider; 0 when no divider serves. */
    method AutoSetDiv(ns: nat) returns (f: nat)
      requires Valid() && ns < WORD
      modifies this`exponent
      ensures Valid()
      ensures f == 0 <==> !Servable(clk, ns)
      ensures f == 0 ==> exponent == old(exponent)
      ensures f != 0 ==> f == Divided(clk, exponent) && LeastExponent(Division(clk, ns), exponent)
      ensures f != 0 ==> WordTicks(ns, f) == Ticks(ns, f)
    {
      var ticks := Ticks(ns, clk);
      if ticks == 0 {
        return 0;
      }
      var i := FindExponent(ticks / 0xFFFF + 1);
      if i > 10 {
        return 0;
      }
      DividerServes(clk, ns, i);
      exponent := i;
      f := Divided(clk, i);
    }

    method Duty100Or0(ch: nat, compareValue: nat)
      requires ch < force.Length
      modifies force
      ensures force[..] == old(force[..])[ch := if period + 1 == compareValue then High
                                                else if compareValue <= 1 then Low else Normal]
    {
      if period + 1 == compareValue {
        force[ch] := High;
      } else if compareValue <= 1 {
        force[ch] := Low;
      } else {
        force[ch] := Normal;
      }
    }

    method SetPeriod(ns: nat) returns (ok: bool)
      requires Valid() && ns < WORD
      modifies this`exponent, this`period, this`settled, compare, force
      ensures Valid() && PeriodStep(old(View()), ns, View())
      ensures ok <==> Servable(clk, ns)
    {
      var f := AutoSetDiv(ns);
      if f == 0 {
        return false;
      }
      var value := WordTicks(ns, f);
      value := if value > 1 then value - 1 else 1;
      period := value;
      RecomputeAll(f);
      settled := settled + channels;
      ok := true;
    }

    /** The period may have changed the divider: recompute the compare value of every configured channel. */
    method RecomputeAll(f: nat)
      requires Valid()
      modifies compare, force
      ensures Valid()
      ensures forall ch :: 0 <= ch < CHANNELS ==>
                if ch in channels then
                  && compare[ch] == Recomputed(WordTicks(pulse[ch], f), period)
                  && force[ch] == Level(period, compare[ch])
                else compare[ch] == old(compare[ch]) && force[ch] == old(force[ch])
    {
      for i := 0 to CHANNELS
        invariant Valid()
        invariant forall ch :: i <= ch < CHANNELS ==> compare[ch] == old(compare[ch]) && force[ch] == old(force[ch])
        invariant forall ch :: 0 <= ch < i ==>
                    if ch in channels then
                      && compare[ch] == Recomputed(WordTicks(pulse[ch], f), period)
                      && force[ch] == Level(period, compare[ch])
                    else compare[ch] == old(compare[ch]) && force[ch] == old(force[ch])
      {
        if i in channels {
          var value := WordTicks(pulse[i], f);
          value := if value >= period then period else if value > 1 then value - 1 else value;
          compare[i] := value;
          Duty100Or0(i, value + 1);
        }
      }
    }

    method SetPulse(ch: nat, ns: nat)
      requires Valid() && ch < CHANNELS
      modifies this`settled, compare, force, pulse
      ensures Valid() && View() == PulseSet(old(View()), ch, ns)
    {
      var f := Divided(clk, exponent);
      var p := period + 1;
      var value := WordTicks(ns, f);
      value := if value > p then p - 1 else if value > 1 then value - 1 else value;
      compare[ch] := value;
      Duty100Or0(ch, value + 1);
      pulse[ch] := ns;
      settled := settled + {ch};
    }

    method Set(ch: nat, periodNs: nat, pulseNs: nat)
      requires Valid() && Legal(Command.Set(ch, periodNs, pulseNs))
      modifies this`exponent, this`period, this`settled, compare, force, pulse
      ensures Valid() && Next(old(View()), Command.Set(ch, periodNs, pulseNs), View())
    {
      var ok := SetPeriod(periodNs);
      ghost var mid := View();
      SetPulse(ch, pulseNs);
      assert Shape(mid) && PeriodStep(old(View()), periodNs, mid) && View() == PulseSet(mid, ch, pulseNs);
    }

    method Enable(ch: nat, complementary: bool, on: bool) returns (ok: bool)
      requires Valid() && ch < CHANNELS
      modifies this`settled, force, output
      ensures Valid() && ok == !complementary
      ensures Next(old(View()), Command.Enable(ch, complementary, on), View())
    {
      var value := compare[ch] + 1;
      if complementary {
        return false;
      }
      Duty100Or0(ch, value);
      output[ch] := on;
      settled := settled + {ch};
      ok := true;
    }
  }
}
