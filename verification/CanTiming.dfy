/** The CAN bit-timing search of drv_can.c: for a clock and a baud rate, find a prescaler and a
    split of the bit time into two segments.

    All quantities are the 32-bit unsigned words of the source. */
module CanTiming {
  import opened Basics

  const PRESCALE_MAX: nat := 256
  const SAMPLE_MIN: nat := 750
  const SAMPLE_MAX: nat := 800
  const MIN_TQ_MUL_PRESCALE: nat := 4

  /** One row of the limits table. */
  datatype Limits = Limits(tqMin: nat, tqMax: nat, seg1Min: nat, seg1Max: nat,
                           seg2Min: nat, seg2Max: nat, sjwMin: nat, sjwMax: nat, minDiff: nat)

  const CAN20: Limits := Limits(8, 65 + 8, 2, 65, 1, 8, 1, 16, 2)
  const ARBITRATION: Limits := Limits(8, 65 + 32, 2, 65, 1, 32, 1, 16, 2)
  const DATA: Limits := Limits(8, 17 + 8, 2, 17, 1, 8, 1, 8, 1)

  predicate KnownLimits(tbl: Limits) {
    tbl == CAN20 || tbl == ARBITRATION || tbl == DATA
  }

  /** What the three rows have in common. */
  predicate Sane(tbl: Limits) {
    && 1 <= tbl.minDiff <= 2 && 8 <= tbl.seg2Max <= 32 && 1 <= tbl.tqMax <= 97 && 8 == tbl.tqMin
    && tbl.seg1Min == 2 && tbl.seg2Min == 1 && 1 <= tbl.sjwMax
  }

  const ROWS: seq<Limits> := [CAN20, ARBITRATION, DATA]

  /** Bit i of an option word; the three low bits are the three phases. */
  predicate BitSet(option: nat, i: nat) {
    (if i == 0 then option else if i == 1 then option / 2 else option / 4) % 2 == 1
  }

  /** The loop that picks the row: the lowest set bit of the three, row 0 if none is set. */
  method FindRow(option: nat) returns (idx: nat)
    ensures idx < 3 && forall i :: 0 <= i < idx ==> !BitSet(option, i)
    ensures BitSet(option, idx) || (idx == 0 && forall i :: 0 <= i < 3 ==> !BitSet(option, i))
    ensures ROWS[idx] == LimitsOf(option)
  {
    idx := 0;
    while idx < 3
      invariant idx <= 3 && forall k :: 0 <= k < idx ==> !BitSet(option, k)
    {
      if BitSet(option, idx) {
        LowestRow(option, idx);
        return;
      }
      idx := idx + 1;
    }
    idx := 0;
    assert !BitSet(option, 0) && !BitSet(option, 1) && !BitSet(option, 2);
  }

  lemma LowestRow(option: nat, idx: nat)
    requires idx < 3 && BitSet(option, idx) && forall i :: 0 <= i < idx ==> !BitSet(option, i)
    ensures LimitsOf(option) == ROWS[idx]
  {
    assert idx > 0 ==> !BitSet(option, 0);
    assert idx > 1 ==> !BitSet(option, 1);
  }

  /** The table row for an option word. */
  function LimitsOf(option: nat): (tbl: Limits)
    ensures KnownLimits(tbl) && Sane(tbl)
  {
    if option % 2 == 1 then CAN20
    else if option / 2 % 2 == 1 then ARBITRATION
    else if option / 4 % 2 == 1 then DATA
    else CAN20
  }

  datatype Timing = Timing(prescaler: nat, seg1: nat, seg2: nat, sjw: nat)

  function Min(a: int, b: int): int { if a < b then a else b }
  function Max(a: int, b: int): int { if a < b then b else a }

  // ---------------------------------------------------------------------------------------------
  // What a bit time is allowed to be
  // ---------------------------------------------------------------------------------------------

  /** The timings the hardware tables and the recommended sample point allow for `product` clock ticks a bit. */
  predicate Allowed(tbl: Limits, product: nat, t: Timing) {
    && 1 <= t.prescaler <= PRESCALE_MAX
    && t.prescaler * (t.seg1 + t.seg2) == product
    && t.seg1 + t.seg2 <= tbl.tqMax
    && tbl.seg1Min <= t.seg1 <= tbl.seg1Max
    && tbl.seg2Min <= t.seg2 <= tbl.seg2Max
    && 0 < t.seg1 + t.seg2
    && SAMPLE_MIN <= t.seg1 * 1000 / (t.seg1 + t.seg2) <= SAMPLE_MAX
    && 1 <= t.sjw <= Min(tbl.sjwMax, t.seg2)
  }

  // ---------------------------------------------------------------------------------------------
  // Reference: the split of one bit time, and the order in which prescalers are tried
  // ---------------------------------------------------------------------------------------------

  /** The first segment: as short as the second segment's limit and the 75% sample point let it be. */
  function Seg1Of(tbl: Limits, tq: nat): int {
    Max(tq - Min((tq - tbl.minDiff) / 2, tbl.seg2Max), (3 * tq + 3) / 4)
  }

  /** The sample point of the split comes after 80% of the bit. One quantum is never enough. */
  predicate Late(tbl: Limits, tq: nat) {
    tq <= 1 || Seg1Of(tbl, tq) * 1000 >= (SAMPLE_MAX + 1) * tq
  }

  predicate TooLong(tbl: Limits, tq: nat) {
    !Late(tbl, tq) && Seg1Of(tbl, tq) > tbl.seg1Max
  }

  predicate Fits(tbl: Limits, tq: nat) {
    !Late(tbl, tq) && Seg1Of(tbl, tq) <= tbl.seg1Max
  }

  predicate Divides(d: nat, product: nat) {
    1 <= d && product % d == 0
  }

  /** `p` divides the bit time into at most `tqMax` quanta. */
  predicate Candidate(tbl: Limits, product: nat, p: nat) {
    Splits(product, p, tbl.tqMax)
  }

  predicate Splits(product: nat, p: nat, maxTq: nat) {
    Divides(p, product) && product / p <= maxTq
  }

  /** `p` is the prescaler the search stops at with success: it fits, and every smaller candidate
      was passed over because its first segment was too long. */
  ghost predicate Chosen(tbl: Limits, product: nat, p: nat) {
    && Candidate(tbl, product, p)
    && p <= PRESCALE_MAX
    && Fits(tbl, product / p)
    && forall q :: 1 <= q < p && Candidate(tbl, product, q) ==> TooLong(tbl, product / q)
  }

  function TimingFor(tbl: Limits, product: nat, p: nat): Timing
    requires 1 <= p && Fits(tbl, product / p) && Sane(tbl)
  {
    var tq := product / p;
    SplitBounds(tbl, tq);
    var seg1 := Seg1Of(tbl, tq);
    Timing(p, seg1, tq - seg1, Min(tbl.sjwMax, tq - seg1))
  }

  lemma SplitBounds(tbl: Limits, tq: nat)
    requires Sane(tbl) && 2 <= tq
    ensures 0 <= Seg1Of(tbl, tq) <= tq
    ensures 4 * Seg1Of(tbl, tq) >= 3 * tq
    ensures tq - Seg1Of(tbl, tq) <= tbl.seg2Max
    ensures !Late(tbl, tq) ==> 4 <= tq && Seg1Of(tbl, tq) < tq
  {
  }

  /** The reference split is the earliest sample point there is: first segments from it on are exactly
      those that respect the second segment's limit, the distance of the segments and the 75% mark. */
  lemma SplitIsEarliest(tbl: Limits, tq: nat, seg1: nat)
    requires Sane(tbl) && 2 <= tq && seg1 <= tq
    ensures Seg1Of(tbl, tq) <= seg1 <==>
              && tq - seg1 <= tbl.seg2Max && seg1 - (tq - seg1) >= tbl.minDiff && 4 * seg1 >= 3 * tq
  {
  }

  lemma DivExact(product: nat, p: nat)
    requires 1 <= p && product % p == 0
    ensures p * (product / p) == product
  {
  }

  // ---------------------------------------------------------------------------------------------
  // The search itself
  // ---------------------------------------------------------------------------------------------

  /** The divisor loop. It runs past its last useful value, and never stops, when `start` exceeds
      `product`; the caller's loop below is what keeps that from happening. */
  method ClosestPrescaler(product: nat, start: nat, maxTq: nat, minTq: nat) returns (p: int)
    requires 1 <= start <= product < WORD && 1 <= maxTq
    ensures start <= p <= product && Splits(product, p, maxTq)
    ensures forall q :: start <= q < p ==> !Splits(product, q, maxTq)
  {
    var hasFound := false;
    p := start;
    while !hasFound
      invariant start <= p <= product
      invariant forall q :: start <= q < p ==> !Splits(product, q, maxTq)
      invariant hasFound ==> Splits(product, p, maxTq)
      decreases !hasFound, product - p
    {
      OneQuantum(product);
      if product / p > maxTq || product % p != 0 {
        p := p + 1;
      } else {
        hasFound := true;
      }
    }
    var tq := product / p;
    DivExact(product, p);
    if Wrap(tq * p) == product {
      hasFound := true;
    } else if tq < minTq {
      hasFound := false;
    }
    p := if hasFound then p else 0;
  }

  lemma OneQuantum(product: nat)
    requires 1 <= product
    ensures product / product == 1 && product % product == 0
  {
  }

  /** The sample point of a split, in thousandths of the bit time. */
  method SamplePoint(seg1: nat, numTq: nat) returns (point: nat)
    requires 1 <= numTq
    ensures seg1 <= 97 ==> (point < SAMPLE_MIN <==> 4 * seg1 < 3 * numTq)
    ensures seg1 <= 97 ==> (point > SAMPLE_MAX <==> seg1 * 1000 >= (SAMPLE_MAX + 1) * numTq)
    ensures numTq == 1 && WORD - 40 <= seg1 < WORD ==> point > SAMPLE_MAX
  {
    point := Wrap(seg1 * 1000) / numTq;
    if seg1 <= 97 {
      FloorAtLeast(seg1 * 1000, numTq, SAMPLE_MIN);
      FloorAtLeast(seg1 * 1000, numTq, SAMPLE_MAX + 1);
    }
  }

  /** The first adjusting loop: bring the second segment down to its limit. With one quantum the
      unsigned subtraction goes below zero; the loop then counts down from 2^31 and leaves a first
      segment close to 2^32. */
  method LimitSeg2(tbl: Limits, numTq: nat) returns (seg1: nat, seg2: nat)
    requires Sane(tbl) && 1 <= numTq <= tbl.tqMax
    ensures numTq >= 2 ==> seg2 == Min((numTq - tbl.minDiff) / 2, tbl.seg2Max) && seg1 + seg2 == numTq
    ensures numTq == 1 ==> seg1 == 1 || WORD - 40 <= seg1 < WORD
  {
    seg2 := Wrap(numTq - tbl.minDiff) / 2;
    seg1 := Wrap(numTq - seg2);
    ghost var wanted := seg2;
    while seg2 > tbl.seg2Max
      invariant seg1 == Wrap(numTq - seg2)
      invariant Min(wanted, tbl.seg2Max) <= seg2 <= wanted
    {
      WrapSucc(numTq - seg2);
      seg2 := seg2 - 1;
      seg1 := Wrap(seg1 + 1);
    }
    if numTq == 1 {
      WrapNear(1 - seg2);
    }
  }

  lemma WrapSucc(x: int)
    ensures Wrap(Wrap(x) + 1) == Wrap(x + 1)
  {
  }

  lemma WrapNear(x: int)
    requires 0 < x + WORD && x < WORD
    ensures x < 0 ==> Wrap(x) == x + WORD
    ensures 0 <= x ==> Wrap(x) == x
  {
  }

  /** The second adjusting loop: move the sample point to 75% of the bit or later. */
  method Split(tbl: Limits, numTq: nat) returns (seg1: nat, seg2: nat, point: nat)
    requires Sane(tbl) && 1 <= numTq <= tbl.tqMax
    ensures point > SAMPLE_MAX <==> Late(tbl, numTq)
    ensures numTq >= 2 ==> seg1 == Seg1Of(tbl, numTq) && seg1 + seg2 == numTq
  {
    seg1, seg2 := LimitSeg2(tbl, numTq);
    ghost var first := seg1;
    point := SamplePoint(seg1, numTq);
    while point < SAMPLE_MIN
      invariant numTq == 1 ==> point > SAMPLE_MAX
      invariant numTq >= 2 ==> Moved(first, seg1, seg2, numTq, point)
      decreases numTq - seg1
    {
      seg1 := Wrap(seg1 + 1);
      seg2 := Wrap(seg2 - 1);
      point := SamplePoint(seg1, numTq);
    }
    if numTq >= 2 {
      SplitIsReference(tbl, first, seg1, seg2, numTq, point);
    }
  }

  /** The second loop has moved the boundary from `first` to `seg1`, and no further than the 75% point. */
  ghost predicate Moved(first: int, seg1: int, seg2: int, numTq: nat, point: nat) {
    && 0 <= first <= seg1 && 0 <= seg2 && seg1 + seg2 == numTq
    && (point < SAMPLE_MIN <==> 4 * seg1 < 3 * numTq)
    && (point > SAMPLE_MAX <==> seg1 * 1000 >= (SAMPLE_MAX + 1) * numTq)
    && (first < seg1 ==> 4 * (seg1 - 1) < 3 * numTq)
  }

  lemma SplitIsReference(tbl: Limits, first: int, seg1: int, seg2: int, numTq: nat, point: nat)
    requires 2 <= numTq && Moved(first, seg1, seg2, numTq, point) && point >= SAMPLE_MIN
    requires first == numTq - Min((numTq - tbl.minDiff) / 2, tbl.seg2Max)
    ensures seg1 == Seg1Of(tbl, numTq)
    ensures point > SAMPLE_MAX <==> Late(tbl, numTq)
  {
  }

  /** The outer loop: from prescaler 1 on, take the next candidate until one fits or one ends the search. */
  method SearchPrescaler(tbl: Limits, product: nat) returns (hasFound: bool, current: nat, seg1: nat, seg2: nat)
    requires Sane(tbl) && 1 <= product < WORD
    ensures hasFound ==> Chosen(tbl, product, current) && product / current >= 2
    ensures hasFound ==> seg1 == Seg1Of(tbl, product / current) && seg1 + seg2 == product / current
    ensures !hasFound ==> forall p: nat :: !Chosen(tbl, product, p)
  {
    var start := 1;
    hasFound, current, seg1, seg2 := false, 0, 0, 0;
    while !hasFound
      invariant 1 <= start <= product
      invariant forall q :: 1 <= q < start && Candidate(tbl, product, q) ==> TooLong(tbl, product / q)
      invariant hasFound ==> Chosen(tbl, product, current) && product / current >= 2
      invariant hasFound ==> seg1 == Seg1Of(tbl, product / current) && seg1 + seg2 == product / current
      decreases !hasFound, product - start
    {
      current := ClosestPrescaler(product, start, tbl.tqMax, tbl.tqMin);
      assert Candidate(tbl, product, current);
      assert forall q :: 1 <= q < current && Candidate(tbl, product, q) ==> TooLong(tbl, product / q);
      if current < start || current > PRESCALE_MAX {
        NothingBefore(tbl, product, current);
        break;
      }
      var numTq := product / current;
      QuotientPositive(product, current);
      var point;
      seg1, seg2, point := Split(tbl, numTq);
      if point > SAMPLE_MAX {
        NothingBefore(tbl, product, current);
        break;
      }
      SplitBounds(tbl, numTq);
      if seg2 >= tbl.seg2Min && seg1 <= tbl.seg1Max {
        hasFound := true;
      } else {
        assert TooLong(tbl, numTq);
        NotWhole(product, current);
        start := current + 1;
      }
    }
  }

  /** Search and result for a bit time of `product` clock ticks. */
  method TimingOf(tbl: Limits, product: nat) returns (r: Option<Timing>)
    requires Sane(tbl) && 1 <= product < WORD
    ensures Found(tbl, product, r)
  {
    var hasFound, current, seg1, seg2 := SearchPrescaler(tbl, product);
    if hasFound {
      ChosenIsAllowed(tbl, product, current);
      r := Some(Timing(current, seg1, seg2, Min(tbl.sjwMax, seg2)));
    } else {
      r := None;
    }
  }

  /** The result is the allowed timing at the chosen prescaler, or no prescaler is chosen. */
  ghost predicate Found(tbl: Limits, product: nat, r: Option<Timing>)
    requires Sane(tbl)
  {
    match r
    case None => forall p: nat :: !Chosen(tbl, product, p)
    case Some(t) =>
      && Chosen(tbl, product, t.prescaler) && Allowed(tbl, product, t)
      && t == TimingFor(tbl, product, t.prescaler) && t.sjw == Min(tbl.sjwMax, t.seg2)
  }

  /** The whole calculation. `preset` is the row of the predefined table for this clock, baud rate
      and phase, when there is one. */
  method CalcBitTiming(canClk: nat, baud: nat, option: nat, preset: Option<Timing>) returns (r: Option<Timing>)
    requires canClk < WORD && baud < WORD
    ensures preset.Some? ==> r == preset
    ensures preset.None? && (baud == 0 || canClk / baud < 8) ==> r.None?
    ensures preset.None? && baud != 0 && canClk / baud >= 8 ==>
              Found(LimitsOf(option), canClk / baud, r) && InPhase(option, canClk / baud, r)
  {
    if preset.Some? {
      return preset;
    }
    var idx := FindRow(option);
    var tbl := ROWS[idx];
    if baud == 0 || canClk / baud < MIN_TQ_MUL_PRESCALE {
      return None;
    }
    if canClk / baud < tbl.tqMin {
      return None;
    }
    QuotientBound(canClk, baud);
    var product: nat := canClk / baud;
    r := TimingOf(tbl, product);
    FoundInPhase(option, tbl, product, r);
  }

  /** What the option word's phase gets: a timing within its limits that jumps as far as they let it; in
      the arbitration phase, one whenever there is one. */
  ghost predicate InPhase(option: nat, product: nat, r: Option<Timing>) {
    && (r.Some? ==> MeetsPhase(option, product, r.value))
    && (r.None? && option == 2 ==> forall t :: !Allowed(ARBITRATION, product, t))
  }

  predicate MeetsPhase(option: nat, product: nat, t: Timing) {
    && (option == 1 ==> Allowed(CAN20, product, t) && t.sjw == Min(16, t.seg2))
    && (option == 2 ==> Allowed(ARBITRATION, product, t) && t.sjw == Min(16, t.seg2))
    && (option == 4 ==> Allowed(DATA, product, t) && t.sjw == Min(8, t.seg2))
  }

  lemma AllowedMeets(option: nat, tbl: Limits, product: nat, t: Timing)
    requires tbl == LimitsOf(option) && Allowed(tbl, product, t) && t.sjw == Min(tbl.sjwMax, t.seg2)
    ensures MeetsPhase(option, product, t)
  {
  }

  lemma FoundInPhase(option: nat, tbl: Limits, product: nat, r: Option<Timing>)
    requires tbl == LimitsOf(option) && Found(tbl, product, r)
    ensures InPhase(option, product, r)
  {
    if r.Some? {
      AllowedMeets(option, tbl, product, r.value);
    } else if option == 2 {
      NoneAllowed(product);
    }
  }

  lemma NoneAllowed(product: nat)
    requires forall p: nat :: !Chosen(ARBITRATION, product, p)
    ensures forall t :: !Allowed(ARBITRATION, product, t)
  {
    forall t | Allowed(ARBITRATION, product, t) ensures false {
      ArbitrationComplete(product, t);
    }
  }

  lemma QuotientBound(a: nat, d: nat)
    requires 1 <= d
    ensures a / d <= a
  {
    FloorAtLeast(a, d, a + 1);
  }

  lemma QuotientPositive(product: nat, p: nat)
    requires 1 <= p <= product
    ensures product / p >= 1
  {
    FloorAtLeast(product, p, 1);
  }

  /** With at least two quanta the prescaler is below the product, so the next start is in range. */
  lemma NotWhole(product: nat, p: nat)
    requires 1 <= p <= product && product / p >= 2
    ensures p < product
  {
  }

  /** A candidate that is out of range or late ends the search for every prescaler from it on. */
  lemma NothingBefore(tbl: Limits, product: nat, current: nat)
    requires Candidate(tbl, product, current)
    requires forall q :: 1 <= q < current && Candidate(tbl, product, q) ==> TooLong(tbl, product / q)
    requires current > PRESCALE_MAX || Late(tbl, product / current)
    ensures forall p: nat :: !Chosen(tbl, product, p)
  {
  }

  // ---------------------------------------------------------------------------------------------
  // Main results
  // ---------------------------------------------------------------------------------------------

  /** Soundness: the timing at the chosen prescaler is an allowed one, and the first segment is the longer. */
  lemma ChosenIsAllowed(tbl: Limits, product: nat, p: nat)
    requires Sane(tbl) && Chosen(tbl, product, p)
    ensures Allowed(tbl, product, TimingFor(tbl, product, p))
    ensures TimingFor(tbl, product, p).seg1 >= TimingFor(tbl, product, p).seg2 + 1
  {
    var tq := product / p;
    SplitBounds(tbl, tq);
    DivExact(product, p);
    FloorAtLeast(Seg1Of(tbl, tq) * 1000, tq, SAMPLE_MIN);
    FloorAtLeast(Seg1Of(tbl, tq) * 1000, tq, SAMPLE_MAX + 1);
  }

  /** At most one prescaler is chosen, so the search result is a function of the bit time. */
  lemma ChosenUnique(tbl: Limits, product: nat, p: nat, q: nat)
    requires Chosen(tbl, product, p) && Chosen(tbl, product, q)
    ensures p == q
  {
  }

  /** An allowed timing uses a number of quanta that the reference split also accepts, when the second
      segment's limit leaves the 75% point within reach. */
  lemma AllowedFits(tbl: Limits, product: nat, t: Timing)
    requires Sane(tbl) && Allowed(tbl, product, t)
    requires t.seg1 + t.seg2 <= 4 * tbl.seg2Max
    ensures Candidate(tbl, product, t.prescaler)
    ensures product / t.prescaler == t.seg1 + t.seg2 >= 4
    ensures Fits(tbl, t.seg1 + t.seg2)
  {
    var tq := t.seg1 + t.seg2;
    Multiple(tq, t.prescaler);
    FloorAtLeast(t.seg1 * 1000, tq, SAMPLE_MIN);
    FloorAtLeast(t.seg1 * 1000, tq, SAMPLE_MAX + 1);
    SplitBounds(tbl, tq);
    assert Seg1Of(tbl, tq) <= t.seg1;
  }

  lemma Multiple(a: nat, b: nat)
    requires 1 <= b
    ensures (a * b) % b == 0 && (a * b) / b == a
    ensures b * a == a * b
  {
    FloorAtLeast(a * b, b, a);
    FloorAtLeast(a * b, b, a + 1);
    MulSucc(a, b);
    assert a * b == b * ((a * b) / b) + (a * b) % b;
  }

  /** Quanta and prescaler of a candidate divide the product into each other. */
  lemma Swap(product: nat, p: nat)
    requires 1 <= p && product % p == 0 && 1 <= product / p
    ensures product % (product / p) == 0 && product / (product / p) == p
  {
    DivExact(product, p);
    Multiple(p, product / p);
  }

  /** More quanta have a smaller prescaler. */
  lemma QuantaOrder(product: nat, p: nat, q: nat)
    requires 1 <= p <= q && product % p == 0 && product % q == 0 && 1 <= product
    ensures product / q <= product / p && (p < q ==> product / q < product / p)
  {
    DivExact(product, p);
    DivExact(product, q);
    if product / p < product / q {
      MulLe(product / p + 1, product / q, q);
      MulLe(p, q, product / p);
      assert false;
    }
  }

  /** The most quanta a table's first segment has room for. */
  function Cap(tbl: Limits): nat {
    if tbl == CAN20 then 73 else if tbl == ARBITRATION then 86 else 22
  }

  /** The quanta counts whose sample point cannot be brought to 80% or before. */
  predicate LateCount(tbl: Limits, tq: nat) {
    tq in {1, 2, 3, 6, 7, 11} || (tbl == CAN20 && 41 <= tq)
  }

  lemma TooLongExactly(tbl: Limits, tq: nat)
    requires KnownLimits(tbl) && 1 <= tq <= tbl.tqMax
    ensures Cap(tbl) <= tbl.tqMax
    ensures TooLong(tbl, tq) <==> Cap(tbl) < tq
  {
  }

  lemma LateExactly(tbl: Limits, tq: nat)
    requires KnownLimits(tbl) && 1 <= tq <= Cap(tbl)
    ensures Late(tbl, tq) <==> LateCount(tbl, tq)
  {
  }

  ghost predicate LargestDivisor(product: nat, cap: nat, d: nat) {
    && d <= cap && Divides(d, product)
    && forall e :: d < e <= cap ==> !Divides(e, product)
  }

  /** Every bit time has one. */
  lemma {:induction false} FindLargest(product: nat, cap: nat) returns (d: nat)
    requires 1 <= product && 1 <= cap
    ensures LargestDivisor(product, cap, d)
  {
    if Divides(cap, product) {
      d := cap;
    } else {
      assert product % 1 == 0;
      d := FindLargest(product, cap - 1);
    }
  }

  /** The search passes over every prescaler below the one of the largest divisor up to the cap. */
  lemma PassedOver(tbl: Limits, product: nat, d: nat, q: nat)
    requires KnownLimits(tbl) && 1 <= product && LargestDivisor(product, Cap(tbl), d)
    requires 1 <= q < product / d && Candidate(tbl, product, q)
    ensures TooLong(tbl, product / q)
  {
    PrescalerOf(product, d);
    QuantaOrder(product, q, product / d);
    Swap(product, q);
    assert Divides(product / q, product);
    TooLongExactly(tbl, product / q);
  }

  lemma PrescalerOf(product: nat, d: nat)
    requires 1 <= product && Divides(d, product)
    ensures Divides(product / d, product) && product / (product / d) == d
  {
    DivExact(product, d);
    Swap(product, d);
  }

  /** Exactly when the search succeeds, for every table and bit time: with d the largest divisor of the
      bit time up to the table's cap, when d quanta leave a prescaler in range and d is not late. */
  lemma SucceedsExactly(tbl: Limits, product: nat, d: nat)
    requires KnownLimits(tbl) && 1 <= product && LargestDivisor(product, Cap(tbl), d)
    ensures (exists p: nat :: Chosen(tbl, product, p)) <==> product / d <= PRESCALE_MAX && !LateCount(tbl, d)
  {
    var p := product / d;
    PrescalerOf(product, d);
    TooLongExactly(tbl, d);
    LateExactly(tbl, d);
    forall q | 1 <= q < p && Candidate(tbl, product, q) ensures TooLong(tbl, product / q) {
      PassedOver(tbl, product, d, q);
    }
    DecidedAt(tbl, product, p);
  }

  /** The first candidate that is not passed over decides the search. */
  lemma DecidedAt(tbl: Limits, product: nat, p: nat)
    requires Candidate(tbl, product, p) && !TooLong(tbl, product / p)
    requires forall q :: 1 <= q < p && Candidate(tbl, product, q) ==> TooLong(tbl, product / q)
    ensures (exists q: nat :: Chosen(tbl, product, q)) <==> p <= PRESCALE_MAX && !Late(tbl, product / p)
  {
    if p <= PRESCALE_MAX && !Late(tbl, product / p) {
      assert Chosen(tbl, product, p);
    } else {
      NothingBefore(tbl, product, p);
    }
  }

  /** In the arbitration phase the search is complete: whenever some allowed timing exists, it finds one. */
  lemma ArbitrationComplete(product: nat, t: Timing)
    requires Allowed(ARBITRATION, product, t)
    ensures exists p: nat :: Chosen(ARBITRATION, product, p)
  {
    var tq := t.seg1 + t.seg2;
    AllowedFits(ARBITRATION, product, t);
    TooLongExactly(ARBITRATION, tq);
    Swap(product, t.prescaler);
    assert Divides(tq, product);
    var d := FindLargest(product, 86);
    QuantaOrder(product, tq, d);
    if LateCount(ARBITRATION, d) {
      var better := Combined(product, d, tq);
      assert Divides(better, product);
    }
    SucceedsExactly(ARBITRATION, product, d);
  }

  /** Late quanta counts only occur together with a larger, better divisor of the product. */
  lemma Combined(product: nat, late: nat, good: nat) returns (better: nat)
    requires late in {1, 2, 3, 6, 7, 11} && 4 <= good <= late && Fits(ARBITRATION, good)
    requires product % late == 0 && product % good == 0
    ensures late < better <= 60 && product % better == 0 && Fits(ARBITRATION, better)
  {
    GoodQuanta(good);
    if late == 6 {
      better := CombinedSix(product, good);
    } else if late == 7 {
      better := CombinedSeven(product, good);
    } else {
      better := CombinedEleven(product, good);
    }
  }

  lemma GoodQuanta(good: nat)
    requires 4 <= good <= 11 && Fits(ARBITRATION, good)
    ensures good in {4, 5, 8, 9, 10}
  {
  }

  lemma CombinedSix(product: nat, good: nat) returns (better: nat)
    requires product % 6 == 0 && good in {4, 5} && product % good == 0
    ensures better in {12, 30} && product % better == 0
  {
    better := if good == 4 then 12 else 30;
    if good == 4 {
      Coarser(product, 6, 3, 2);
      Coprime(product, 4, 3, 1, -1);
    } else {
      Coprime(product, 6, 5, 1, -1);
    }
  }

  lemma CombinedSeven(product: nat, good: nat) returns (better: nat)
    requires product % 7 == 0 && good in {4, 5} && product % good == 0
    ensures better in {28, 35} && product % better == 0
  {
    better := if good == 4 then 28 else 35;
    if good == 4 {
      Coprime(product, 7, 4, -1, 2);
    } else {
      Coprime(product, 7, 5, 3, -4);
    }
  }

  lemma CombinedEleven(product: nat, good: nat) returns (better: nat)
    requires product % 11 == 0 && good in {4, 5, 8, 9, 10} && product % good == 0
    ensures better in {33, 44, 55} && product % better == 0
  {
    if good == 4 || good == 8 {
      better := 44;
      Coarser(product, good, 4, good / 4);
      Coprime(product, 11, 4, 3, -8);
    } else if good == 9 {
      better := 33;
      Coarser(product, 9, 3, 3);
      Coprime(product, 11, 3, -1, 4);
    } else {
      better := 55;
      Coarser(product, good, 5, good / 5);
      Coprime(product, 11, 5, 1, -2);
    }
  }

  lemma Coarser(product: nat, fine: nat, d: nat, k: nat)
    requires 1 <= d && fine == d * k && 1 <= fine && product % fine == 0
    ensures product % d == 0
  {
    DivExact(product, fine);
    var m := k * (product / fine);
    assert product == m * d;
    Multiple(m, d);
  }

  /** Two divisors with a Bezout combination equal to one divide jointly. */
  lemma Coprime(product: nat, a: nat, b: nat, x: int, y: int)
    requires 1 <= a && 1 <= b && x * a + y * b == 1
    requires product % a == 0 && product % b == 0
    ensures product % (a * b) == 0
  {
    var i, j := product / a, product / b;
    DivExact(product, a);
    DivExact(product, b);
    var k := x * j + y * i;
    calc {
      product;
      (x * a + y * b) * product;
      x * a * (b * j) + y * b * (a * i);
      k * (a * b);
    }
    if k < 0 {
      MulLe(k, -1, a * b);
    }
    Multiple(k, a * b);
  }

  /** In the other two tables the search gives up although an allowed timing exists: it stops at the
      first late candidate, where a larger prescaler would have done. */
  lemma Can20Incomplete()
    ensures Allowed(CAN20, 50, Timing(2, 19, 6, 6))
    ensures !exists p: nat :: Chosen(CAN20, 50, p)
  {
    assert 50 % 50 == 0;
    SucceedsExactly(CAN20, 50, 50);
  }

  lemma DataIncomplete()
    ensures Allowed(DATA, 35, Timing(7, 4, 1, 1))
    ensures !exists p: nat :: Chosen(DATA, 35, p)
  {
    assert 35 % 7 == 0;
    forall e | 7 < e <= 22 ensures !Divides(e, 35) {
      if e <= 11 {
        assert e == 8 || e == 9 || e == 10 || e == 11;
      } else if e <= 17 {
        assert 35 == e * 2 + (35 - e * 2);
      } else {
        assert 35 == e * 1 + (35 - e);
      }
    }
    SucceedsExactly(DATA, 35, 7);
  }
}
