/** Registers of the mb86a16 that encode the symbol rate and the synthesiser frequency
    (dvb-frontends/mb86a16.c, smrt_info_get, smrt_set, rf_val_set and freqerr_chk). */
module Mb86a16 {
  import opened Arithmetic
  import opened PeakPicker

  /** Decimation exponent, clock select and roll-off select for a symbol rate in kSps. */
  datatype Ladder = Ladder(deci: nat, csel: nat, rsel: nat)

  /** How many samples of the halved master clock are taken together. */
  function Decimation(k: nat): nat
    requires k <= 5
  {
    if k == 0 then 1 else if k == 1 then 2 else if k == 2 then 4 else if k == 3 then 8 else if k == 4 then 16 else 32
  }

  function Octave(rate: nat): nat {
    if rate >= 22501 then 0 else if rate * 2 >= 22501 then 1 else if rate * 4 >= 22501 then 2
    else if rate * 8 >= 22501 then 3 else if rate * 16 >= 22501 then 4 else 5
  }

  /** The regular ladder: decimate until the rate reaches 22501, then choose one of four settings. */
  function RegularLadder(rate: nat): Ladder {
    var deci := Octave(rate);
    var s := rate * Decimation(deci);
    Ladder(deci, if s >= 30001 then 0 else 1, if s >= 37501 || 26251 <= s < 30001 then 0 else 1)
  }

  function MasterClock(csel: nat): nat {
    if csel == 0 then 92000 else 61333
  }

  /** The product of the timing offset, which the code builds from the left. */
  function RateTerm(l: Ladder, rate: nat): int
    requires l.deci <= 5
  {
    2 * Decimation(l.deci) * rate * 8192
  }

  /** The dividend of the timing offset. */
  function OffsetDividend(l: Ladder, rate: nat): int
    requires l.deci <= 5
  {
    8192 * MasterClock(l.csel) - RateTerm(l, rate) + MasterClock(l.csel) / 2
  }

  /** The timing offset that smrt_set computes, with C's division. */
  function TimingOffset(l: Ladder, rate: nat): int
    requires l.deci <= 5
  {
    Div(OffsetDividend(l, rate), MasterClock(l.csel))
  }

  /** None of the products and sums of the timing offset overflows a C int. */
  predicate NoOverflow(l: Ladder, rate: nat)
    requires l.deci <= 5
  {
    && FitsInt(8192 * MasterClock(l.csel)) && FitsInt(2 * Decimation(l.deci)) && FitsInt(2 * Decimation(l.deci) * rate)
    && FitsInt(RateTerm(l, rate)) && FitsInt(8192 * MasterClock(l.csel) - RateTerm(l, rate))
    && FitsInt(OffsetDividend(l, rate))
  }

  /** The ladder the code computes: the regular one, but for two rates. */
  function CodeLadder(rate: nat): Ladder {
    if rate == 938 then Ladder(5, 1, 0) else if rate == 2813 then Ladder(4, 0, 0) else RegularLadder(rate)
  }

  lemma DivRange(num: int, d: int)
    requires d > 0
    ensures 0 <= Div(num, d) < 4096 <==> -d < num < 4096 * d
  {
    if num >= 0 {
      QuotientRange(num, d, 4096);
    } else {
      QuotientRange(-num, d, 1);
    }
  }

  lemma QuotientRange(x: nat, d: nat, k: nat)
    requires d > 0
    ensures x / d < k <==> x < k * d
    ensures x / d >= 0
  {
    Divided(x, d);
    if x / d < k { NextMultiple(x / d, k, d); } else { Ordered(k, x / d, d); }
  }

  /** The rate as a multiple of the lowest decimated rate stays in one octave, unless it is too low for it. */
  lemma OctaveBounds(rate: nat)
    ensures Octave(rate) <= 5
    ensures Octave(rate) < 5 ==> rate * Decimation(Octave(rate)) >= 22501
    ensures Octave(rate) > 0 ==> rate * Decimation(Octave(rate)) <= 45000
  {
  }

  /** What there is to know about the scaled rate and the clock that the code's ladder pairs it with. */
  lemma LadderBounds(rate: nat)
    ensures var l := CodeLadder(rate);
            var s := rate * Decimation(l.deci);
            && l.deci <= 5 && (MasterClock(l.csel) == 92000 || MasterClock(l.csel) == 61333)
            && (rate >= 480 <==> s >= 15360) && (l.deci == 0 ==> s == rate)
            && (l.deci > 0 ==> s <= 45008) && (s > 30016 ==> MasterClock(l.csel) == 92000)
            && (s < 30001 && rate != 938 && rate != 2813 ==> MasterClock(l.csel) == 61333)
            && (rate == 938 ==> s == 30016 && MasterClock(l.csel) == 61333)
            && (rate == 2813 ==> s == 45008)
  {
    OctaveBounds(rate);
    var l := CodeLadder(rate);
    assert l.deci == 5 ==> rate * Decimation(l.deci) == 32 * rate;
  }

  lemma Scaled(l: Ladder, rate: nat)
    requires l.deci <= 5
    ensures RateTerm(l, rate) == 16384 * (rate * Decimation(l.deci))
  {
    assert 2 * Decimation(l.deci) * rate == 2 * (rate * Decimation(l.deci));
  }

  /** Exactly the rates from 480 to 46008 give an offset that fits the twelve bits it has. */
  lemma OffsetFits(rate: nat)
    ensures CodeLadder(rate).deci <= 5
    ensures 0 <= TimingOffset(CodeLadder(rate), rate) < 4096 <==> 480 <= rate <= 46008
  {
    var l := CodeLadder(rate);
    LadderBounds(rate);
    Scaled(l, rate);
    DivRange(OffsetDividend(l, rate), MasterClock(l.csel));
    hide CodeLadder, Div, MasterClock, Decimation, RateTerm;
  }

  /** The offset is computed without overflow exactly up to the rate 131071, far beyond those that fit. */
  lemma OverflowsExactly(rate: nat)
    ensures CodeLadder(rate).deci <= 5 && (NoOverflow(CodeLadder(rate), rate) <==> rate < 131072)
  {
    LadderBounds(rate);
    Scaled(CodeLadder(rate), rate);
  }

  /** The stored offset stands for the requested rate to within half a step of the master clock. */
  lemma OffsetIsAccurate(l: Ladder, rate: nat)
    requires l.deci <= 5 && TimingOffset(l, rate) >= 0 && 2 * Decimation(l.deci) * rate <= MasterClock(l.csel)
    ensures var error := MasterClock(l.csel) * (8192 - TimingOffset(l, rate)) - 16384 * Decimation(l.deci) * rate;
            2 * error <= MasterClock(l.csel) && -2 * error <= MasterClock(l.csel)
  {
    var mclk, num := MasterClock(l.csel), OffsetDividend(l, rate);
    var q := num / mclk;
    Scaled(l, rate);
    assert num >= 0;
    Euclid(num, mclk);
    assert q == TimingOffset(l, rate);
    assert 16384 * Decimation(l.deci) * rate == 16384 * (rate * Decimation(l.deci));
    assert mclk * (8192 - q) == 8192 * mclk - q * mclk;
  }

  lemma TwelveBits(x: int)
    ensures x / 0x100 % 16 * 0x100 + x % 0x100 == x % 4096
  {
    var q := x / 0x100;
    Euclid(x, 0x100);
    Euclid(q, 16);
    DivUnique(x, 4096, q / 16);
  }

  class Demod {
    const regs: array<u8>
    var deci: nat
    var csel: nat
    var rsel: nat
    var masterClk: nat

    constructor ()
      ensures regs.Length == 256 && fresh(regs)
    {
      regs := new u8[256];
      deci, csel, rsel, masterClk := 0, 0, 0, 92000;
    }

    /** The ladder is the regular one at every rate but two. */
    method SmrtInfoGet(rate: nat)
      modifies this
      ensures Ladder(deci, csel, rsel) == RegularLadder(rate) <==> rate != 938 && rate != 2813
      ensures rate == 938 ==> deci == 5 && csel == 1 && rsel == 0
      ensures rate == 2813 ==> deci == 4 && csel == 0 && rsel == 0
      ensures masterClk == MasterClock(csel) && Ladder(deci, csel, rsel) == CodeLadder(rate)
      ensures deci <= 5 && csel <= 1 && rsel <= 1
    {
      if rate >= 37501 { deci, csel, rsel := 0, 0, 0; }
      else if rate >= 30001 { deci, csel, rsel := 0, 0, 1; }
      else if rate >= 26251 { deci, csel, rsel := 0, 1, 0; }
      else if rate >= 22501 { deci, csel, rsel := 0, 1, 1; }
      else if rate >= 18751 { deci, csel, rsel := 1, 0, 0; }
      else if rate >= 15001 { deci, csel, rsel := 1, 0, 1; }
      else if rate >= 13126 { deci, csel, rsel := 1, 1, 0; }
      else if rate >= 11251 { deci, csel, rsel := 1, 1, 1; }
      else if rate >= 9376 { deci, csel, rsel := 2, 0, 0; }
      else if rate >= 7501 { deci, csel, rsel := 2, 0, 1; }
      else if rate >= 6563 { deci, csel, rsel := 2, 1, 0; }
      else if rate >= 5626 { deci, csel, rsel := 2, 1, 1; }
      else if rate >= 4688 { deci, csel, rsel := 3, 0, 0; }
      else if rate >= 3751 { deci, csel, rsel := 3, 0, 1; }
      else if rate >= 3282 { deci, csel, rsel := 3, 1, 0; }
      else if rate >= 2814 { deci, csel, rsel := 3, 1, 1; }
      else if rate >= 2344 { deci, csel, rsel := 4, 0, 0; }
      else if rate >= 1876 { deci, csel, rsel := 4, 0, 1; }
      else if rate >= 1641 { deci, csel, rsel := 4, 1, 0; }
      else if rate >= 1407 { deci, csel, rsel := 4, 1, 1; }
      else if rate >= 1172 { deci, csel, rsel := 5, 0, 0; }
      else if rate >= 939 { deci, csel, rsel := 5, 0, 1; }
      else if rate >= 821 { deci, csel, rsel := 5, 1, 0; }
      else { deci, csel, rsel := 5, 1, 1; }
      masterClk := if csel == 0 then 92000 else 61333;
    }

    predicate Set()
      reads this
    {
      regs.Length == 256 && deci <= 5 && csel <= 1 && rsel <= 1 && masterClk == MasterClock(csel)
    }

    method SmrtSet(rate: nat)
      requires Set() && NoOverflow(Ladder(deci, csel, rsel), rate)
      modifies regs
      ensures HeldLadder() == Ladder(deci, csel, rsel)
      ensures HeldOffset() == TimingOffset(Ladder(deci, csel, rsel), rate) % 4096
      ensures var mode: int, low: int, high: int := regs[0x03], regs[0x04], regs[0x05];
              mode == 4 * deci + 2 * csel + rsel &&
              high * 0x100 + low == TimingOffset(Ladder(deci, csel, rsel), rate) % 4096
      ensures forall r | 0 <= r < 256 && r != 0x03 && r != 0x04 && r != 0x05 :: regs[r] == old(regs[r])
    {
      var tmp := TimingOffset(Ladder(deci, csel, rsel), rate);
      TwelveBits(tmp);
      regs[0x03] := 4 * deci + 2 * csel + rsel;
      regs[0x04] := tmp % 0x100;
      regs[0x05] := tmp / 0x100 % 16;
    }

    /** The offset that the registers hold. */
    function HeldOffset(): int
      requires regs.Length == 256
      reads this, regs
    {
      var low: int, high: int := regs[0x04], regs[0x05];
      high * 0x100 + low
    }

    function HeldLadder(): Ladder
      requires regs.Length == 256
      reads this, regs
    {
      Ladder(regs[0x03] / 4, regs[0x03] / 2 % 2, regs[0x03] % 2)
    }

    /** Every rate that the sweep passes is encoded faithfully: nothing is lost in the registers, and the rate they
        stand for is within half a step of the master clock of the one asked for. */
    method SetSymbolRate(rate: nat)
      requires regs.Length == 256 && 480 <= rate <= 45900
      modifies this, regs
      ensures HeldLadder() == CodeLadder(rate) && masterClk == MasterClock(HeldLadder().csel)
      ensures HeldLadder().deci <= 5
      ensures var error := masterClk * (8192 - HeldOffset()) - 16384 * Decimation(HeldLadder().deci) * rate;
              2 * error <= masterClk && -2 * error <= masterClk
    {
      OverflowsExactly(rate);
      OffsetFits(rate);
      LadderHolds(rate);
      OffsetIsAccurate(CodeLadder(rate), rate);
      SmallRemains(TimingOffset(CodeLadder(rate), rate));
      hide CodeLadder, RegularLadder, Octave, Decimation, MasterClock, TimingOffset, NoOverflow, Div;
      SmrtInfoGet(rate);
      SmrtSet(rate);
    }
  }

  lemma SmallRemains(x: int)
    ensures 0 <= x < 4096 ==> x % 4096 == x
  {
  }

  /** At least two samples of the master clock per decimated symbol. */
  lemma LadderHolds(rate: nat)
    requires rate <= 46000
    ensures CodeLadder(rate).deci <= 5 && 2 * Decimation(CodeLadder(rate).deci) * rate <= MasterClock(CodeLadder(rate).csel)
  {
  }

  /** All the rates that the sweep asks for, given a supported symbol rate, can be encoded. */
  lemma SweepRatesEncodable(srate: nat)
    requires 1000 <= srate <= 45000
    ensures 480 <= srate * 98 / 100 <= srate <= srate * 102 / 100 <= 45900
    ensures 480 <= (if srate >= 1500 then srate / 3 else srate / 2) <= 45900
  {
  }

  // ---------- the synthesiser word ----------

  /** The bytes that carry the divider mode and the seventeen-bit word, with the band in the last four bits. */
  function WordBytes(M: nat, R: nat, band: nat): (u8, u8, u8)
    requires R <= 1 && band < 16
  {
    (0x20 * R + M / 0x1000 % 0x20, M / 0x10 % 0x100, M % 0x10 * 0x10 + band)
  }

  /** The seventeen-bit word that the bytes hold. */
  function Word(high: int, mid: int, low: int): int {
    high % 0x20 * 0x1000 + mid * 0x10 + low / 0x10
  }

  /** The synthesiser frequency as freqerr_chk works it out from these bytes. */
  function OscOf(high: int, mid: int, low: int): int {
    var M := high % 0x20 * 0x1000 + mid * 0x10 + low / 0x10;
    if high / 0x20 == 0 then 2 * M else M
  }

  lemma Digits17(M: nat)
    ensures M / 0x1000 % 0x20 * 0x1000 + M / 0x10 % 0x100 * 0x10 + M % 0x10 == M % 0x2_0000
  {
    var a, low := DivMod(M, 0x10);
    var b, mid := DivMod(a, 0x100);
    var c, high := DivMod(b, 0x20);
    DivUnique(M, 0x1000, b);
    DivUnique(M, 0x2_0000, c);
  }

  /** Two digits packed into a byte come out of it again. */
  lemma Packed(high: nat, low: nat, base: nat)
    requires low < base
    ensures (high * base + low) / base == high && (high * base + low) % base == low
  {
    DivUnique(high * base + low, base, high);
  }

  lemma WordReadsBack(M: nat, R: nat, band: nat)
    requires R <= 1 && band < 16
    ensures var (high, mid, low) := WordBytes(M, R, band);
            OscOf(high, mid, low) == (if R == 0 then 2 * (M % 0x2_0000) else M % 0x2_0000) &&
            Word(high, mid, low) == M % 0x2_0000 && low % 0x10 == band && high / 0x20 == R
  {
    Digits17(M);
    var a, d := M / 0x1000 % 0x20, M % 0x10;
    Packed(R, a, 0x20);
    Packed(d, band, 0x10);
    assert 0x20 * R == R * 0x20;
  }

  function Band(f: int): nat {
    if f < 1060 then 0 else if f < 1175 then 1 else if f < 1305 then 2 else if f < 1435 then 3 else if f < 1570 then 4
    else if f < 1715 then 5 else if f < 1845 then 6 else if f < 1980 then 7 else if f < 2080 then 8 else 9
  }

  /** The word for frequency f. */
  function WordFor(f: nat, R: nat): nat {
    if R == 0 then f / 2 else f * 2 / 2
  }

  /** The frequency that the word keeps, exactly when the divider mode can take it and it fits. */
  predicate Representable(f: nat, R: nat) {
    (R == 0 ==> f % 2 == 0) && WordFor(f, R) < 0x2_0000
  }

  lemma OscReadsBack(f: nat, R: nat)
    requires R <= 1
    ensures var (high, mid, low) := WordBytes(WordFor(f, R), R, Band(f));
            (OscOf(high, mid, low) == f <==> Representable(f, R)) && low % 0x10 == Band(f) && high / 0x20 == R &&
            Word(high, mid, low) == (if R == 0 then f / 2 else f) % 0x2_0000
  {
    WordReadsBack(WordFor(f, R), R, Band(f));
    hide WordBytes, OscOf, Word, Band;
    Remainder17(WordFor(f, R));
    Halved(f);
  }

  lemma WordForBoth(f: nat, R: nat)
    ensures WordFor(f, R) == if R == 0 then f / 2 else f
  {
  }

  lemma Remainder17(M: nat)
    ensures M % 0x2_0000 == M <==> M < 0x2_0000
  {
  }

  lemma Halved(f: nat)
    ensures 2 * (f / 2) == f <==> f % 2 == 0
    ensures 2 * (f / 2 % 0x2_0000) == f <==> f % 2 == 0 && f / 2 < 0x2_0000
  {
    var q, r := DivMod(f, 2);
    Divided(q, 0x2_0000);
    Remainder17(q);
  }

  /** The band counts how many of the nine limits the frequency has reached. */
  lemma BandLimits(f: int)
    ensures var limits := [1060, 1175, 1305, 1435, 1570, 1715, 1845, 1980, 2080];
            Band(f) <= 9 && forall k | 0 <= k < 9 :: Band(f) > k <==> f >= limits[k]
  {
  }

  lemma LoopByte(c: nat, f: nat)
    requires c <= 4 && f < 4
    ensures var v := 1 + 8 * c + 2 * f;
            0 <= v < 256 && v / 8 == c && v / 2 % 4 == f && v % 2 == 1
  {
    DivUnique(1 + 8 * c + 2 * f, 8, c);
    DivUnique(1 + 8 * c + 2 * f, 2, 4 * c + f);
    DivUnique(4 * c + f, 4, c);
  }

  class Synthesiser {
    const regs: array<u8>

    constructor ()
      ensures regs.Length == 256 && fresh(regs)
    {
      regs := new u8[256];
    }

    function HeldOsc(): int
      requires regs.Length == 256
      reads this, regs
    {
      OscOf(regs[0x22], regs[0x23], regs[0x24])
    }

    function HeldWord(): int
      requires regs.Length == 256
      reads this, regs
    {
      Word(regs[0x22], regs[0x23], regs[0x24])
    }

    /** Writes the synthesiser word. The frequency reads back unchanged exactly when the divider mode can take it
        and it fits the seventeen bits of the word. The band counts the limits that the frequency has reached; the
        first loop setting falls with the symbol rate, the second follows four ranges of it. */
    method RfValSet(f: nat, smrt: nat, R: nat)
      requires regs.Length == 256 && R <= 1
      modifies regs
      ensures HeldOsc() == f <==> (R == 0 ==> f % 2 == 0) && (if R == 0 then f / 2 else f) < 0x2_0000
      ensures HeldWord() == (if R == 0 then f / 2 else f) % 0x2_0000 && regs[0x22] / 0x20 == R
      ensures var band, limits := regs[0x24] % 0x10, [1060, 1175, 1305, 1435, 1570, 1715, 1845, 1980, 2080];
              band <= 9 && forall k | 0 <= k < 9 :: band > k <==> f >= limits[k]
      ensures var c, f' := regs[0x21] / 8, regs[0x21] / 2 % 4;
              && 1 <= c <= 4 && (c <= 3 <==> smrt > 5500) && (c <= 2 <==> smrt > 18875) && (c <= 1 <==> smrt > 37750)
              && (f' == 2 <==> smrt <= 4625) && (f' == 0 <==> 4625 < smrt <= 9375)
              && (f' == 1 <==> 9375 < smrt <= 30500) && (f' == 3 <==> smrt > 30500)
      ensures regs[0x21] % 2 == 1 && regs[0x25] == 1
      ensures forall r | 0 <= r < 256 && !(0x21 <= r <= 0x25) :: regs[r] == old(regs[r])
    {
      var C := if smrt > 37750 then 1 else if smrt > 18875 then 2 else if smrt > 5500 then 3 else 4;
      var F := if smrt > 30500 then 3 else if smrt > 9375 then 1 else if smrt > 4625 then 0 else 2;
      OscReadsBack(f, R);
      BandLimits(f);
      LoopByte(C, F);
      WordForBoth(f, R);
      hide WordBytes, OscOf, Word, WordFor, Band;
      var (high, mid, low) := WordBytes(WordFor(f, R), R, Band(f));
      regs[0x21] := 1 + 8 * C + 2 * F;
      regs[0x22], regs[0x23], regs[0x24] := high, mid, low;
      regs[0x25] := 1;
    }

    /** Tuning and reading back: whatever frequency the sweep computes, the registers hold it exactly. */
    method Tune(freq: nat, smrt: nat, R: nat) returns (t: Tuning)
      requires regs.Length == 256 && R <= 1 && 2 <= freq <= 100000000
      modifies regs
      ensures HeldOsc() * 1000 + t.afcex == freq && t == TuneTo(freq, R) && HeldOsc() == t.fOSC
      ensures regs[0x22] / 0x20 == R
    {
      t := TuneTo(freq, R);
      RfValSet(t.fOSC, smrt, R);
    }
  }
}
