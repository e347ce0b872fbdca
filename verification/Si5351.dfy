/** Si5351 clock synthesis: PLL and multisynth parameters, their register bytes, and the
    programming of one output (dvb-frontends/m88rs6060.c, m88rs6060_priv.h). */
module Si5351 {
  import opened Arithmetic
  import opened BestRational

  const XTAL_FREQ := 27000000
  const PLL_VCO_MIN := 600000000
  const PLL_VCO_MAX := 900000000
  const PLL_A_MIN := 15
  const PLL_A_MAX := 90
  const PLL_B_MAX := PLL_C_MAX - 1
  const PLL_C_MAX := 1048575
  const MULTISYNTH_MIN_FREQ := 1000000
  const MULTISYNTH_DIVBY4_FREQ := 150000000
  const MULTISYNTH_MAX_FREQ := 160000000
  const MULTISYNTH_A_MIN := 6
  const MULTISYNTH_A_MAX := 1800
  const DENOM := 1000000

  /** The parameter words of one PLL or one output divider. */
  datatype RegSet = RegSet(p1: u32, p2: u32, p3: u32) {
    /** The words fit the 18, 20 and 20 bits they have in the chip. */
    predicate Fits() {
      p1 < 0x4_0000 && p2 < 0x10_0000 && p3 < 0x10_0000
    }

    /** The words stand for the ratio whole + part/over. */
    predicate Encodes(whole: nat, part: nat, over: nat) {
      p3 == over >= 1 && (p1 + 512) * p3 + p2 == 128 * (whole * over + part)
    }

    /** The words stand for the ratio num/den. */
    predicate EncodesRatio(num: nat, den: nat) {
      p3 >= 1 && ((p1 + 512) * p3 + p2) * den == 128 * p3 * num
    }
  }

  function Clamp(x: int, lo: int, hi: int): int
    requires lo <= hi
  {
    if x < lo then lo else if x > hi then hi else x
  }

  /** The frequency between 600 and 900 MHz that is nearest to this one. */
  function ClampPll(freq: int): (f: nat)
    ensures 600000000 <= f <= 900000000
  {
    Clamp(freq, PLL_VCO_MIN, PLL_VCO_MAX)
  }

  /** The frequency between 1 and 160 MHz that is nearest to this one. */
  function ClampOutput(freq: int): (f: nat)
    ensures 1000000 <= f <= 160000000
  {
    Clamp(freq, MULTISYNTH_MIN_FREQ, MULTISYNTH_MAX_FREQ)
  }

  /** No number inside the limits is nearer to the request than the clamped one. */
  lemma ClampedIsNearest(freq: int, y: int)
    ensures 600000000 <= y <= 900000000 ==> Abs(ClampPll(freq) - freq) <= Abs(y - freq)
    ensures 1000000 <= y <= 160000000 ==> Abs(ClampOutput(freq) - freq) <= Abs(y - freq)
  {
    assert ClampPll(freq) == Clamp(freq, 600000000, 900000000);
    assert ClampOutput(freq) == Clamp(freq, 1000000, 160000000);
  }

  lemma ParametersEncode(a: nat, b: nat, c: nat, q: nat, r: nat)
    requires b < c && 128 * b == q * c + r && r < c
    ensures q < 128 && (128 * a + q) * c + r == 128 * (a * c + b)
  {
    QuotientBounds(128 * b, c, q, 0, 127);
    assert (128 * a + q) * c == 128 * (a * c) + q * c by {
      assert 128 * a * c == 128 * (a * c);
    }
  }

  /** The words computed from a whole part and a fraction. From whole part 4 on they stand for exactly that ratio;
      below, the first word wraps around. They fit their fields for the whole parts from 4 to 2051. */
  function Parameters(a: nat, b: nat, c: nat): (reg: RegSet)
    requires a <= 4294 && b < c <= DENOM
    ensures reg.Fits() <==> 4 <= a <= 2051
    ensures a >= 4 ==> reg.Encodes(a, b, c)
    ensures a < 4 ==> reg.p1 >= 0xffff_fe00
    ensures reg.p3 == c
  {
    Divided(128 * b, c);
    var q, r := 128 * b / c, 128 * b % c;
    ParametersEncode(a, b, c, q, r);
    RegSet(U32(128 * a + q - 512), r, c)
  }

  /** The fractional part of x/y in millionths, rounded down. */
  function SixDigitFraction(x: nat, y: nat): (rfrac: u32)
    requires y >= 1
    ensures rfrac < DENOM && rfrac == x % y * DENOM / y
    ensures rfrac * y <= x % y * DENOM < rfrac * y + y
  {
    var part: nat := x % y;
    Euclid(x, y);
    NextMultiple(part, y, DENOM);
    DivBounds(part * DENOM, y, 0, DENOM - 1);
    Euclid(part * DENOM, y);
    x % y * DENOM / y
  }

  /** b/c is rfrac/10^6 in lowest terms, below one. */
  ghost predicate LowestTerms(rfrac: nat, b: nat, c: nat) {
    b < c <= DENOM && rfrac * c == DENOM * b && Coprime(b, c)
  }

  /** The best approximation of a six-digit fraction within the chip's limits is that fraction. */
  lemma SixDigitsAreExact(rfrac: u32, b: ulong, c: ulong)
    requires 0 < rfrac < DENOM
    requires Best(rfrac, DENOM, PLL_B_MAX, PLL_C_MAX, b, c) <==> Attainable(rfrac, DENOM, PLL_B_MAX, PLL_C_MAX)
    ensures Attainable(rfrac, DENOM, PLL_B_MAX, PLL_C_MAX) && b < c && rfrac * c == DENOM * b
  {
    assert rfrac / DENOM == 0;
    hide Best;
    ReachableMeansExact(rfrac, DENOM, PLL_B_MAX, PLL_C_MAX, b, c, rfrac, DENOM);
    BestInLimits(rfrac, b, c);
    if b >= c {
      Ordered(c, b, DENOM);
      NextMultiple(rfrac, DENOM, c);
    }
  }

  lemma BestInLimits(rfrac: u32, b: ulong, c: ulong)
    requires Best(rfrac, DENOM, PLL_B_MAX, PLL_C_MAX, b, c)
    ensures c >= 1
  {
  }

  /** rfrac/10^6 in lowest terms, or 0/1. PLL and output divider have the same limits on b and c. */
  method Fraction(rfrac: u32) returns (b: ulong, c: ulong)
    requires rfrac < DENOM
    ensures LowestTerms(rfrac, b, c)
  {
    b, c := 0, 1;
    if rfrac != 0 {
      hide Best, Attainable, Closest, ClosestInValue, Coprime;
      b, c := RationalBestApproximation(rfrac, DENOM, PLL_B_MAX, PLL_C_MAX);
      SixDigitsAreExact(rfrac, b, c);
    } else {
      UnitDeterminantIsCoprime(0, 1, 1, 1);
    }
  }

  lemma PllRate(f: nat, a: nat, rfrac: nat, b: nat, c: nat)
    requires a == f / XTAL_FREQ && rfrac == f % XTAL_FREQ * DENOM / XTAL_FREQ
    requires c >= 1 && rfrac * c == DENOM * b
    ensures XTAL_FREQ * b / c == 27 * rfrac
    ensures 27 * rfrac + XTAL_FREQ * a == f - f % 27
  {
    assert XTAL_FREQ * b == 27 * rfrac * c by {
      assert 27 * (rfrac * c) == 27 * rfrac * c;
    }
    DivUnique(XTAL_FREQ * b, c, 27 * rfrac);
    SixDigitsOfCrystal(f, a, rfrac);
  }

  lemma SixDigitsOfCrystal(f: nat, a: nat, rfrac: nat)
    requires a == f / XTAL_FREQ && rfrac == f % XTAL_FREQ * DENOM / XTAL_FREQ
    ensures 27 * rfrac + XTAL_FREQ * a == f - f % 27
  {
  }

  lemma PllEncodes(reg: RegSet, a: nat, rfrac: nat, b: nat, c: nat)
    requires reg.Encodes(a, b, c) && rfrac * c == DENOM * b
    ensures reg.EncodesRatio(27 * rfrac + XTAL_FREQ * a, XTAL_FREQ)
  {
    var num := (reg.p1 + 512) * reg.p3 + reg.p2;
    assert num == 128 * (a * c + b) && num * XTAL_FREQ == 128 * (XTAL_FREQ * (a * c)) + 128 * 27 * (DENOM * b);
    assert 128 * c * (27 * rfrac + XTAL_FREQ * a) == 128 * 27 * (rfrac * c) + 128 * (XTAL_FREQ * (a * c)) by {
      Expand(c, rfrac, a);
    }
  }

  lemma Expand(c: nat, rfrac: nat, a: nat)
    ensures 128 * c * (27 * rfrac + XTAL_FREQ * a) == 128 * 27 * (rfrac * c) + 128 * (XTAL_FREQ * (a * c))
  {
  }

  method PllCalc(freq: u32) returns (rate: u32, reg: RegSet)
    ensures rate == ClampPll(freq) - ClampPll(freq) % 27
    ensures reg.Fits() && reg.EncodesRatio(rate, 27000000)
  {
    var f := ClampPll(freq);
    var a: u32 := f / XTAL_FREQ;
    if a < PLL_A_MIN { f := XTAL_FREQ * PLL_A_MIN; }
    if a > PLL_A_MAX { f := XTAL_FREQ * PLL_A_MAX; }
    var rfrac := SixDigitFraction(f, XTAL_FREQ);
    var b, c := Fraction(rfrac);
    reg := Parameters(a, b, c);
    PllRate(f, a, rfrac, b, c);
    PllEncodes(reg, a, rfrac, b, c);
    rate := XTAL_FREQ * b / c + XTAL_FREQ * a;
  }

  /** What multisynth_calc promises: the VCO frequency is the largest multiple of the clamped request
      in the VCO band, and the divider is exactly that multiple; above 150 MHz it is the fixed divide-by-4. */
  predicate PickedPll(freq: u32, pll: u32, reg: RegSet) {
    var f := ClampOutput(freq);
    && 600000000 <= pll <= 900000000
    && if f > 150000000 then pll == 4 * f && reg == RegSet(0, 0, 1) else
       && reg.Fits() && reg.p3 == 1 && reg.p2 == 0
       && (reg.p1 + 512) / 128 * f == pll && (reg.p1 + 512) % 128 == 0 && 900000000 < pll + f
  }

  method MultisynthCalc(freq: u32) returns (pll: u32, reg: RegSet)
    ensures PickedPll(freq, pll, reg)
  {
    var f: u32 := ClampOutput(freq);
    var a := if f > MULTISYNTH_DIVBY4_FREQ then 4 else PLL_VCO_MAX / f;
    if f <= MULTISYNTH_DIVBY4_FREQ {
      QuotientBand(f, a);
      reg := Parameters(a, 0, 1);
    } else {
      reg := RegSet(0, 0, 1);
    }
    pll := a * f;
  }

  lemma QuotientBand(f: nat, a: nat)
    requires MULTISYNTH_MIN_FREQ <= f <= MULTISYNTH_DIVBY4_FREQ && a == PLL_VCO_MAX / f
    ensures 6 <= a <= 900 && PLL_VCO_MAX - f < a * f <= PLL_VCO_MAX
  {
    Euclid(PLL_VCO_MAX, f);
    QuotientBounds(PLL_VCO_MAX, f, a, 6, 900);
  }

  /** The divider in the registers is at most pll/f and less than 10^-6 below it. */
  predicate Tracks(reg: RegSet, pll: nat, f: nat) {
    var num, den := (reg.p1 + 512) * reg.p3 + reg.p2, 128 * reg.p3;
    num * f <= den * pll && (den * pll - num * f) * DENOM < den * f
  }

  /** The frequency aimed for once the whole part a of the ratio is checked against its limits. */
  function AimFor(f: nat, pll: nat, a: nat): (aim: nat)
    ensures a < 6 ==> 6 * aim <= pll < 6 * aim + 6
    ensures a > 1800 ==> 1800 * aim <= pll < 1800 * aim + 1800
    ensures 6 <= a <= 1800 ==> aim == f
  {
    if a < MULTISYNTH_A_MIN then pll / MULTISYNTH_A_MIN
    else if a > MULTISYNTH_A_MAX then pll / MULTISYNTH_A_MAX
    else f
  }

  /** The fraction that multisynth_recalc encodes, in millionths: that of the ratio to the frequency aimed for,
      although the whole part stays that of the ratio to f. */
  function RecalcDigits(f: nat, pll: nat): (rfrac: u32)
    requires f >= MULTISYNTH_MIN_FREQ && pll >= 6
    ensures rfrac < DENOM
  {
    AimPositive(f, pll);
    SixDigitFraction(pll, AimFor(f, pll, pll / f))
  }

  lemma AimPositive(f: nat, pll: nat)
    requires f >= MULTISYNTH_MIN_FREQ && pll >= 6
    ensures pll / f >= 0 && AimFor(f, pll, pll / f) >= 1
  {
    var a, _ := DivMod(pll, f);
    if a > MULTISYNTH_A_MAX { Ordered(1, a, f); }
  }

  /** The call divides by zero neither for the remainder (from 6 on) nor for the rate. */
  predicate NoZeroDivide(freq: u32, pll: u32) {
    var f := ClampOutput(freq);
    pll >= 6 && (pll / f >= 1 || RecalcDigits(f, pll) > 0)
  }

  /** The two divisors of the call: the frequency aimed for, and the divisor of the rate. */
  lemma ZeroDivisors(freq: u32, pll: u32)
    ensures var f := ClampOutput(freq); pll / f >= 0 && (AimFor(f, pll, pll / f) == 0 <==> pll < 6)
    ensures pll >= 6 ==>
              forall b: nat, c: nat | LowestTerms(RecalcDigits(ClampOutput(freq), pll), b, c) ::
                RateDivisor(ClampOutput(freq), pll, b, c) == 0 <==> !NoZeroDivide(freq, pll)
  {
    var f := ClampOutput(freq);
    var a, _ := DivMod(pll, f);
    if pll < 6 {
      DivUnique(pll, f, 0);
    } else {
      AimPositive(f, pll);
      forall b: nat, c: nat | LowestTerms(RecalcDigits(f, pll), b, c)
        ensures RateDivisor(f, pll, b, c) == 0 <==> !NoZeroDivide(freq, pll)
      {
        NoWholeNoPart(a, RecalcDigits(f, pll), b, c);
      }
    }
  }

  function RateDivisor(f: nat, pll: nat, b: nat, c: nat): int
    requires f >= 1
  {
    pll / f * c + b
  }

  lemma NoWholeNoPart(a: nat, rfrac: nat, b: nat, c: nat)
    requires b < c && rfrac * c == DENOM * b
    ensures a * c + b == 0 <==> a == 0 && rfrac == 0
  {
    if a >= 1 { Ordered(1, a, c); }
    if rfrac >= 1 { Ordered(1, rfrac, c); }
    assert rfrac == 0 ==> rfrac * c == 0;
    assert a == 0 ==> a * c == 0;
  }

  /** What multisynth_recalc leaves in the words, for any PLL frequency. */
  ghost predicate Recalculated(freq: u32, pll: u32, reg: RegSet) {
    var f := ClampOutput(freq);
    pll >= 6 && if f > 150000000 then reg == RegSet(0, 0, 1) else DividerFor(f, pll, pll / f, reg)
  }

  ghost predicate DividerFor(f: nat, pll: nat, a: int, reg: RegSet)
    requires f >= MULTISYNTH_MIN_FREQ && pll >= 6
  {
    0 <= a <= 4294 && exists b: nat, c: nat :: LowestTerms(RecalcDigits(f, pll), b, c) && reg == Parameters(a, b, c)
  }

  lemma WholePart(f: nat, pll: u32)
    requires f >= MULTISYNTH_MIN_FREQ
    ensures 0 <= pll / f <= 4294
  {
    Euclid(pll, f);
    DivBounds(pll, f, 0, 4294);
  }

  lemma EncodedRatio(reg: RegSet, pll: nat, f: nat, a: nat, q: nat, b: nat, c: nat)
    requires reg.Encodes(a, b, c) && pll == a * f + q
    ensures Tracks(reg, pll, f) <==> b * f <= c * q && (c * q - b * f) * DENOM < c * f
  {
    assert c * pll == a * c * f + c * q by {
      assert c * (a * f) == a * c * f;
    }
    assert (a * c + b) * f == a * c * f + b * f;
    ScaledTracks(a * c + b, c, f, pll, c * q - b * f);
  }

  /** The factor 128 plays no part in the comparison. */
  lemma ScaledTracks(base: nat, c: nat, f: nat, pll: nat, excess: int)
    requires c * pll - base * f == excess
    ensures 128 * base * f <= 128 * c * pll <==> 0 <= excess
    ensures (128 * c * pll - 128 * base * f) * DENOM < 128 * c * f <==> excess * DENOM < c * f
  {
    assert 128 * base * f == 128 * (base * f) && 128 * c * pll == 128 * (c * pll) && 128 * c * f == 128 * (c * f);
  }

  /** In millionths: the fraction b/c is the one of q/f rounded down exactly if its six digits are those of q/f. */
  lemma DigitsDecide(rfrac: nat, b: nat, c: nat, q: nat, f: nat)
    requires c >= 1 && rfrac * c == DENOM * b
    ensures b * f <= c * q <==> rfrac * f <= q * DENOM
    ensures (c * q - b * f) * DENOM < c * f <==> q * DENOM < rfrac * f + f
  {
    var low, x := rfrac * f, q * DENOM;
    assert low * c == DENOM * b * f by { Regroup(rfrac, f, c); }
    assert x * c == c * q * DENOM by { Regroup(q, DENOM, c); }
    assert DENOM * b * f == b * f * DENOM;
    assert (c * q - b * f) * DENOM == c * q * DENOM - b * f * DENOM;
    Sign(low, x, c);
    assert (low + f) * c == low * c + c * f;
    SignStrict(x, low + f, c);
  }

  lemma Sign(x: int, y: int, z: int)
    requires z >= 1
    ensures x <= y <==> x * z <= y * z
  {
    if x <= y { Ordered(x, y, z); } else { NextMultiple(y, x, z); }
  }

  lemma SignStrict(x: int, y: int, z: int)
    requires z >= 1
    ensures x < y <==> x * z < y * z
  {
    if x < y { NextMultiple(x, y, z); } else { Ordered(y, x, z); }
  }

  /** Six digits below f are the six digits of a fraction. */
  lemma SameDigits(rfrac: nat, pll: nat, f: nat)
    requires f >= 1
    ensures rfrac * f <= pll % f * DENOM < rfrac * f + f <==> rfrac == SixDigitFraction(pll, f)
  {
    if rfrac * f <= pll % f * DENOM < rfrac * f + f {
      QuotientBounds(pll % f * DENOM, f, SixDigitFraction(pll, f), rfrac, rfrac);
    }
  }

  /** A wrapped first word stands for a divider far beyond any ratio. */
  lemma WrappedDoesNotTrack(reg: RegSet, pll: u32, f: nat)
    requires reg.p1 >= 0xffff_fe00 && reg.p3 >= 1 && f >= MULTISYNTH_MIN_FREQ
    ensures !Tracks(reg, pll, f)
  {
    var c: int := reg.p3;
    Ordered(0x1_0000_0000, reg.p1 + 512, c);
    Ordered(0x1_0000_0000 * c, (reg.p1 + 512) * c + reg.p2, f);
    Ordered(1000000, f, 0x1_0000_0000 * c);
    Ordered(pll, 0x1_0000_0000, 128 * c);
  }

  /** For every PLL frequency: the words fit their fields for the whole parts from 4 to 2051, and the divider
      tracks the ratio if and only if its whole part is at least 4 and the six digits encoded are those of the ratio. */
  lemma RecalcExactly(freq: u32, pll: u32, reg: RegSet)
    requires ClampOutput(freq) <= MULTISYNTH_DIVBY4_FREQ && Recalculated(freq, pll, reg)
    ensures var f := ClampOutput(freq);
            && (reg.Fits() <==> 4 <= pll / f <= 2051)
            && (Tracks(reg, pll, f) <==> pll / f >= 4 && RecalcDigits(f, pll) == SixDigitFraction(pll, f))
  {
    var f := ClampOutput(freq);
    var a, q := DivMod(pll, f);
    var rfrac := RecalcDigits(f, pll);
    var b: nat, c: nat :| LowestTerms(rfrac, b, c) && reg == Parameters(a, b, c);
    if a < 4 {
      WrappedDoesNotTrack(reg, pll, f);
    } else {
      hide RecalcDigits, Parameters, Coprime;
      EncodedRatio(reg, pll, f, a, q, b, c);
      DigitsDecide(rfrac, b, c, q, f);
      SameDigits(rfrac, pll, f);
    }
  }

  /** The ratios the chip is made for, whatever the PLL frequency: everything fits, and the divider tracks. */
  lemma RecalcInRange(freq: u32, pll: u32, reg: RegSet)
    requires ClampOutput(freq) <= MULTISYNTH_DIVBY4_FREQ && Recalculated(freq, pll, reg)
    requires 6 <= pll / ClampOutput(freq) <= 1800
    ensures reg.Fits() && Tracks(reg, pll, ClampOutput(freq))
  {
    RecalcExactly(freq, pll, reg);
    hide Tracks, Recalculated;
  }

  /** For a PLL inside the VCO band only a fraction that rounds to nothing survives a ratio below 6. */
  lemma RecalcInBand(freq: u32, pll: u32, reg: RegSet)
    requires ClampOutput(freq) <= MULTISYNTH_DIVBY4_FREQ && Recalculated(freq, pll, reg)
    requires 600000000 <= pll <= 900000000
    ensures var f := ClampOutput(freq);
            reg.Fits() && (Tracks(reg, pll, f) <==> pll / f >= 6 || pll % f * DENOM < f)
  {
    var f := ClampOutput(freq);
    RecalcExactly(freq, pll, reg);
    hide Tracks, Recalculated;
    RatioInBand(f, pll, pll / f);
    if pll / f < MULTISYNTH_A_MIN {
      NoDigitsLeft(pll, pll / 6);
      SameDigits(0, pll, f);
    }
  }

  lemma RatioInBand(f: nat, pll: nat, a: int)
    requires MULTISYNTH_MIN_FREQ <= f <= MULTISYNTH_DIVBY4_FREQ && PLL_VCO_MIN <= pll <= PLL_VCO_MAX && a == pll / f
    ensures 4 <= a <= 900
  {
    Euclid(pll, f);
    QuotientBounds(pll, f, a, 4, 900);
  }

  /** Taken of a sixth of a PLL frequency in the band, the fraction rounds to nothing. */
  lemma NoDigitsLeft(pll: nat, aim: nat)
    requires PLL_VCO_MIN <= pll <= PLL_VCO_MAX && aim == pll / 6
    ensures SixDigitFraction(pll, aim) == 0
  {
    DivUnique(pll, aim, 6);
    SameDigits(0, pll, aim);
  }

  /** 150 MHz from a PLL at 780 MHz, which 130 MHz on another output asks for: the ratio 5.2 is encoded as 5. */
  lemma FractionIsLost(reg: RegSet)
    requires Recalculated(150000000, 780000000, reg)
    ensures reg == RegSet(128, 0, 1) && !Tracks(reg, 780000000, 150000000)
  {
    RecalcInBand(150000000, 780000000, reg);
    assert RecalcDigits(150000000, 780000000) == 0;
    var b: nat, c: nat :| LowestTerms(0, b, c) && reg == Parameters(5, b, c);
    assert b == 0;
    ZeroInLowestTerms(c);
  }

  lemma ZeroInLowestTerms(c: nat)
    requires c >= 1 && Coprime(0, c)
    ensures c == 1
  {
    assert 0 == c * 0 && c == c * 1;
    assert Divides(c, 0) && Divides(c, c);
  }

  // ---------- the rate it returns ----------

  /** A divider a + b/c at or below pll/f gives a rate at or above f, and just above it if it is just below. */
  lemma RateJustAbove(pll: nat, f: nat, a: nat, q: nat, b: nat, c: nat, base: nat, rate: nat)
    requires c >= 1 && pll == a * f + q && b * f <= c * q
    requires base == a * c + b && rate * base <= pll * c < rate * base + base
    ensures f <= rate
    ensures a >= 6 && (c * q - b * f) * DENOM < c * f ==> (rate - f) * 6000000 <= f
  {
    var excess := c * q - b * f;
    RateExcess(pll, f, a, q, b, c);
    QuotientAbove(base, f, excess, rate);
    if a >= 6 && excess * DENOM < c * f {
      Ordered(6, a, c);
      SmallExcess(rate - f, base, excess, c, f);
    }
  }

  lemma RateExcess(pll: nat, f: nat, a: nat, q: nat, b: nat, c: nat)
    requires pll == a * f + q
    ensures pll * c == f * (a * c + b) + (c * q - b * f)
  {
    assert pll * c == a * f * c + q * c;
    Regroup(a, f, c);
    assert f * (a * c + b) == f * (a * c) + f * b;
  }

  lemma QuotientAbove(base: nat, f: nat, excess: nat, rate: nat)
    requires rate * base <= f * base + excess < rate * base + base
    ensures rate >= f && (rate - f) * base <= excess
  {
    if rate < f { NextMultiple(rate, f, base); }
    assert (rate - f) * base == rate * base - f * base;
  }

  lemma SmallExcess(over: nat, base: nat, excess: nat, c: nat, f: nat)
    requires over * base <= excess && base >= 6 * c && c >= 1 && excess * DENOM < c * f
    ensures over * 6000000 <= f
  {
    Ordered(6 * c, base, over);
    assert over * (6 * c) * DENOM == over * 6000000 * c by { SixMillion(over, c); }
    SignStrict(over * 6000000, f, c);
  }

  lemma SixMillion(x: nat, c: nat)
    ensures x * (6 * c) * DENOM == x * 6000000 * c
  {
    assert x * (6 * c) == 6 * (x * c) && x * 6000000 * c == 6000000 * (x * c);
  }

  /** The divisor of the rate is at least one and stays below 2^32. */
  lemma DivisorFits(f: nat, pll: u32, a: nat, rfrac: nat, b: nat, c: nat)
    requires f >= MULTISYNTH_MIN_FREQ && pll >= 6 && a == pll / f && rfrac == RecalcDigits(f, pll)
    requires LowestTerms(rfrac, b, c) && (a >= 1 || rfrac > 0)
    ensures 1 <= a * c + b < 0x1_0000_0000
  {
    WholePart(f, pll);
    if a > MULTISYNTH_A_MAX { FewDigits(f, pll, a); }
    hide RecalcDigits, Coprime;
    DivisorBound(a, rfrac, b, c);
  }

  lemma DivisorBound(a: nat, rfrac: nat, b: nat, c: nat)
    requires b < c <= DENOM && rfrac * c == DENOM * b && (a >= 1 || rfrac > 0)
    requires a <= 4294 && (a > MULTISYNTH_A_MAX ==> rfrac <= 1800)
    ensures 1 <= a * c + b < 0x1_0000_0000
  {
    Ordered(c, DENOM, rfrac);
    Ordered(c, DENOM, a);
    assert c * rfrac == rfrac * c && c * a == a * c;
    if a >= 1 { Ordered(1, a, c); } else { Ordered(1, rfrac, c); }
  }

  lemma FewDigits(f: nat, pll: u32, a: nat)
    requires f >= MULTISYNTH_MIN_FREQ && pll >= 6 && a == pll / f > MULTISYNTH_A_MAX
    ensures RecalcDigits(f, pll) <= 1800
  {
    var aim := pll / MULTISYNTH_A_MAX;
    Euclid(pll, f);
    Ordered(1801, a, f);
    Euclid(pll, MULTISYNTH_A_MAX);
    assert aim >= 1000000;
    DivUnique(pll, aim, MULTISYNTH_A_MAX);
    var rfrac := SixDigitFraction(pll, aim);
    if rfrac > 1800 { Ordered(1801, rfrac, aim); }
  }

  lemma QuotientBelowWhole(pll: nat, c: nat, base: nat, rate: nat)
    requires rate * base <= pll * c && base >= c >= 1
    ensures rate <= pll
  {
    if pll < rate {
      NextMultiple(pll, rate, base);
      Ordered(c, base, pll);
    }
  }

  /** The rate, cut to 32 bits. */
  method RecalcRate(pll: u32, c: nat, base: nat) returns (rate: u32)
    requires 1 <= base < 0x1_0000_0000
    ensures rate == U32(pll * c / base)
  {
    rate := U32(pll * c / base);
  }

  /** multisynth_recalc, for every PLL frequency for which it does not divide by zero. */
  method MultisynthRecalc(freq: u32, pll: u32) returns (rate: u32, reg: RegSet)
    requires NoZeroDivide(freq, pll)
    ensures Recalculated(freq, pll, reg)
    ensures var f := ClampOutput(freq);
            && (pll / f >= 1 && RecalcDigits(f, pll) <= SixDigitFraction(pll, f) ==> f <= rate <= pll)
            && (6 <= pll / f <= 1800 ==> f <= rate && (rate - f) * 6000000 <= f)
  {
    var f: u32 := ClampOutput(freq);
    WholePart(f, pll);
    AimPositive(f, pll);
    var a: nat := pll / f;
    var rfrac := SixDigitFraction(pll, AimFor(f, pll, a));
    var b, c := Fraction(rfrac);
    DivisorFits(f, pll, a, rfrac, b, c);
    hide Coprime;
    if f > MULTISYNTH_DIVBY4_FREQ {
      reg := RegSet(0, 0, 1);
    } else {
      reg := Parameters(a, b, c);
    }
    rate := RecalcRate(pll, c, a * c + b);
    if a >= 1 && rfrac <= SixDigitFraction(pll, f) {
      var base := a * c + b;
      ghost var quotient := RateOf(pll, a, b, c, base, rate);
      RateFromDigits(f, pll, a, rfrac, b, c, base, quotient);
    }
  }

  /** From whole part 1 on, nothing of the rate is cut. */
  lemma RateOf(pll: u32, a: nat, b: nat, c: nat, base: nat, rate: nat) returns (quotient: nat)
    requires a >= 1 && c >= 1 && base == a * c + b && rate == U32(pll * c / base)
    ensures rate == quotient <= pll && quotient * base <= pll * c < quotient * base + base
  {
    Ordered(1, a, c);
    var rest;
    quotient, rest := DivMod(pll * c, base);
    QuotientBelowWhole(pll, c, base, quotient);
  }

  lemma RateFromDigits(f: nat, pll: u32, a: nat, rfrac: nat, b: nat, c: nat, base: nat, rate: nat)
    requires f >= 1 && a == pll / f && rfrac <= SixDigitFraction(pll, f) && c >= 1 && rfrac * c == DENOM * b
    requires base == a * c + b && rate * base <= pll * c < rate * base + base
    ensures f <= rate
    ensures a >= 6 && rfrac == SixDigitFraction(pll, f) ==> (rate - f) * 6000000 <= f
  {
    var whole, q := DivMod(pll, f);
    var digits := SixDigitFraction(pll, f);
    assert digits * f <= q * DENOM < digits * f + f;
    hide SixDigitFraction;
    Ordered(rfrac, digits, f);
    DigitsDecide(rfrac, b, c, q, f);
    RateJustAbove(pll, f, a, q, b, c, base, rate);
  }

  /** The ratio that parameter words stand for. */
  function Ratio(reg: RegSet): real
    requires reg.p3 >= 1
  {
    ((reg.p1 + 512) * reg.p3 + reg.p2) as real / (128 * reg.p3) as real
  }

  lemma RatioOfWords(num: nat, den: nat, top: nat, bottom: nat)
    requires den >= 1 && bottom >= 1 && num * bottom == den * top
    ensures bottom as real * (num as real / den as real) == top as real
  {
    var r := num as real / den as real;
    assert r * den as real == num as real;
    assert bottom as real * r * den as real == top as real * den as real by {
      assert (num * bottom) as real == (den * top) as real;
      assert bottom as real * r * den as real == bottom as real * (r * den as real);
      assert (num * bottom) as real == num as real * bottom as real;
      assert (den * top) as real == den as real * top as real;
    }
  }

  /** The divider the picked words encode is a whole number of at least four, and pll is that multiple. */
  lemma WholeDivider(freq: u32, pll: u32, ms: RegSet) returns (a: nat)
    requires PickedPll(freq, pll, ms)
    ensures a >= 4 && a * ClampOutput(freq) == pll && Ratio(ms) == a as real
  {
    var f: int := ClampOutput(freq);
    a := (ms.p1 + 512) / 128;
    assert ms.p3 == 1 && ms.p2 == 0 && a * f == pll;
    assert ms.p1 + 512 == 128 * a;
    RatioOfWords(128 * a, 128, a, 1);
  }

  lemma Shortfall(f: nat, a: nat, pll: nat, rate: nat)
    requires a >= 1 && a * f == pll && rate <= pll <= rate + 26
    ensures var output := rate as real / a as real;
            output <= f as real && (f as real - output) * a as real <= 26.0
  {
    var output, n := rate as real / a as real, a as real;
    assert output * n == rate as real;
    assert pll as real == n * f as real;
    assert (f as real - output) * n == pll as real - rate as real;
    if output > f as real {
      Positive(output - f as real, n);
    }
  }

  lemma Positive(x: real, y: real)
    requires x > 0.0 && y > 0.0
    ensures x * y > 0.0
  {
  }

  lemma PllRatio(rate: nat, pllReg: RegSet)
    requires pllReg.EncodesRatio(rate, XTAL_FREQ)
    ensures XTAL_FREQ as real * Ratio(pllReg) == rate as real
  {
    var num, den: nat := (pllReg.p1 + 512) * pllReg.p3 + pllReg.p2, 128 * pllReg.p3;
    assert num * XTAL_FREQ == den * rate;
    RatioOfWords(num, den, rate, XTAL_FREQ);
  }

  /** End to end: with the words of both blocks in the chip, the output never exceeds the clamped request
      and falls short of it by at most 26 Hz divided by the output divider. */
  lemma OutputError(freq: u32, pll: u32, ms: RegSet, rate: u32, pllReg: RegSet)
    requires PickedPll(freq, pll, ms)
    requires rate == ClampPll(pll) - ClampPll(pll) % 27 && pllReg.EncodesRatio(rate, XTAL_FREQ)
    ensures var divider, f := Ratio(ms), ClampOutput(freq) as real;
            var output := XTAL_FREQ as real * Ratio(pllReg) / divider;
            divider >= 4.0 && output <= f && (f - output) * divider <= 26.0
  {
    var a := WholeDivider(freq, pll, ms);
    PllRatio(rate, pllReg);
    assert rate <= pll <= rate + 26;
    hide Ratio, ClampOutput;
    Shortfall(ClampOutput(freq), a, pll, rate);
  }
}
