/** The STV6110(A) tuner: the choice of the reference divider, the rounded N divider, the fields of the shadow
    registers, and the frequency computed back from them (dvb-frontends/stv6110x.c, stv6110x_priv.h). */
module Stv6110x {
  import opened Arithmetic
  import opened Bytes

  const CTRL1 := 0
  const TNG0 := 2
  const TNG1 := 3
  const STAT1 := 5

  // ---------- fields ----------

  function Mask(width: bv4): byte
    requires width <= 8
  {
    (1 << width) - 1
  }

  /** STV6110x_SETFIELD. The value is not masked: what does not fit the field lands in its neighbours. */
  function SetField(reg: byte, offset: bv4, width: bv4, val: byte): byte
    requires offset <= 8 && width <= 8
  {
    (reg & !(Mask(width) << offset)) | (val << offset)
  }

  function GetField(reg: byte, offset: bv4, width: bv4): byte
    requires offset <= 8 && width <= 8
  {
    (reg >> offset) & Mask(width)
  }

  function KField(reg: byte): byte {
    GetField(reg, 3, 5)
  }

  function RDivField(reg: byte): byte {
    GetField(reg, 6, 2)
  }

  function PrescField(reg: byte): byte {
    GetField(reg, 5, 1)
  }

  function Div4Field(reg: byte): byte {
    GetField(reg, 4, 1)
  }

  function NHighField(reg: byte): byte {
    GetField(reg, 0, 4)
  }

  /** Which bits of their register the fields are. */
  lemma FieldBits(v: byte)
    ensures RDivField(v) == v >> 6 && PrescField(v) == (v & 0x20) >> 5 && Div4Field(v) == (v & 0x10) >> 4
    ensures NHighField(v) == v & 0x0f && KField(v) == v >> 3
  {
    assert v >> 6 == (v >> 6) & 0x03 && v >> 3 == (v >> 3) & 0x1f;
  }

  /** The TNG1 register after its four fields have been set in the driver's order. */
  function Tng1(reg: byte, div4: byte, presc: byte, rDiv: byte, high: byte): byte {
    SetField(SetField(SetField(SetField(reg, 4, 1, div4), 5, 1, presc), 6, 2, rDiv), 0, 4, high)
  }

  /** The four values read back exactly if each fits its field: a wider one lands in a neighbouring field. */
  lemma Tng1Fields(reg: byte, div4: byte, presc: byte, rDiv: byte, high: byte)
    ensures var v := Tng1(reg, div4, presc, rDiv, high);
            RDivField(v) == rDiv && PrescField(v) == presc && Div4Field(v) == div4 && NHighField(v) == high
            <==> div4 < 2 && presc < 2 && rDiv < 4 && high < 16
  {
  }

  /** The band bits, and the other bits as they were, make up the whole register. */
  lemma BandBits(reg: byte, div4: byte, presc: byte, r: byte)
    requires div4 < 2 && presc < 2
    ensures r == SetField(SetField(reg, 4, 1, div4), 5, 1, presc) <==>
            Div4Field(r) == div4 && PrescField(r) == presc && r & 0xcf == reg & 0xcf
  {
  }

  lemma ControlField(reg: byte, k: byte)
    requires k < 32
    ensures KField(SetField(reg, 3, 5, k)) == k && SetField(reg, 3, 5, k) & 0x07 == reg & 0x07
  {
  }

  lemma CalibrationBit(reg: byte)
    ensures SetField(reg, 2, 1, 1) == reg | 0x04
  {
  }

  lemma WholeByte(reg: byte, v: byte)
    ensures SetField(reg, 0, 8, v) == v && GetField(v, 0, 8) == v
  {
  }

  // ---------- the reference divider ----------

  /** R_DIV: 2, 4, 8 or 16. */
  function RDiv(r: int): int {
    if r == 0 then 2 else if r == 1 then 4 else if r == 2 then 8 else 16
  }

  function PCalc(ref: int, r: int): int {
    ref / 100 / RDiv(r)
  }

  /** How far the reference clock in units of 100 kHz, divided by R_DIV, is from the target. */
  function Distance(ref: int, pVal: int, r: int): int {
    Abs(ref / 100 / RDiv(r) - pVal)
  }

  /** r is the first of 0..n-1 whose comparison frequency is nearest to pVal. */
  ghost predicate FirstNearest(ref: int, pVal: int, r: int, n: int) {
    && 0 <= r < n
    && (forall k | 0 <= k < n :: Distance(ref, pVal, r) <= Distance(ref, pVal, k))
    && (forall k | 0 <= k < r :: Distance(ref, pVal, r) < Distance(ref, pVal, k))
  }

  /** One more divider: it takes over only if it is strictly nearer. */
  lemma NearestStep(ref: int, pVal: int, best: int, n: int)
    requires n >= 0
    ensures n == 0 ==> FirstNearest(ref, pVal, 0, 1)
    ensures FirstNearest(ref, pVal, best, n) ==>
              FirstNearest(ref, pVal, if Distance(ref, pVal, n) < Distance(ref, pVal, best) then n else best, n + 1)
  {
    hide Distance;
  }

  /** The loop over the four dividers, whatever the reference clock is. */
  method NearestDivider(ref: int, pVal: int) returns (rDivOpt: int)
    requires ref >= 0
    ensures FirstNearest(ref, pVal, rDivOpt, 4)
  {
    rDivOpt := 0;
    var pCalcOpt := 1000;
    var rDiv := 0;
    while rDiv <= 3
      invariant 0 <= rDiv <= 4
      invariant rDiv == 0 ==> rDivOpt == 0
      invariant rDiv > 0 ==> pCalcOpt == PCalc(ref, rDivOpt) && FirstNearest(ref, pVal, rDivOpt, rDiv)
    {
      NearestStep(ref, pVal, rDivOpt, rDiv);
      hide PCalc, FirstNearest;
      var pCalc := PCalc(ref, rDiv);
      if Abs(pCalc - pVal) < Abs(pCalcOpt - pVal) {
        rDivOpt := rDiv;
      }
      pCalcOpt := PCalc(ref, rDivOpt);
      rDiv := rDiv + 1;
    }
  }

  // ---------- the N divider ----------

  /** By how much the N divider and the reference clock are scaled against the frequency: 2^(rDiv + DIV4SEL + 2). */
  function Times(r: int, div4: int): int {
    RDiv(r) * (if div4 == 1 then 4 else 2)
  }

  function Div4Of(f: int): int {
    if f <= 1300000 then 1 else 0
  }

  function PrescOf(f: int): int {
    if f <= 1023000 then 0 else if f <= 1300000 then 1 else if f <= 2046000 then 0 else 1
  }

  function PValOf(f: int): int {
    if f <= 1300000 then 40 else 20
  }

  /** The tuner's declared range, and the reference clocks whose excess over 16 MHz fits its five-bit field. */
  predicate InRange(f: int, ref: int) {
    950000 <= f <= 2150000 && 16000 <= ref < 48000
  }

  /** The driver's two-step division. */
  function Divider(f: int, ref: int, r: int): int
    requires ref > 0
  {
    (U32(f * RDiv(r) * PValOf(f)) / ref + 5) / 10
  }

  lemma NoOverflow(f: int, r: int)
    requires 950000 <= f <= 2150000 && 0 <= r <= 3
    ensures U32(f * RDiv(r) * PValOf(f)) == 10 * (f * Times(r, Div4Of(f)))
  {
    assert r == 0 || r == 1 || r == 2 || r == 3;
  }

  lemma RoundedTens(q: int, n: int, ref: int)
    requires ref > 0 && 10 * n - 5 <= q <= 10 * n + 4
    ensures 10 * (n * ref) - 5 * ref <= q * ref <= 10 * (n * ref) + 4 * ref
  {
    Ordered(10 * n - 5, q, ref);
    Ordered(q, 10 * n + 4, ref);
    assert (10 * n - 5) * ref == 10 * (n * ref) - 5 * ref;
    assert (10 * n + 4) * ref == 10 * (n * ref) + 4 * ref;
  }

  lemma NearestTens(q: int)
    requires q >= 0
    ensures var n := (q + 5) / 10; 10 * n - 5 <= q <= 10 * n + 4 && n >= 0
  {
  }

  /** Dividing first and then rounding to tens is rounding the exact quotient to the nearest whole number. */
  lemma TwoSteps(x: int, ref: int)
    requires ref > 0 && x >= 0
    ensures var n := (10 * x / ref + 5) / 10; -ref <= 2 * (n * ref - x) <= ref && n >= 0
  {
    Divided(10 * x, ref);
    var q := 10 * x / ref;
    NearestTens(q);
    RoundedTens(q, (q + 5) / 10, ref);
  }

  /** N is the nearest whole number to the scaled ratio of frequency and reference. */
  lemma DividerIsNearest(f: int, ref: int, r: int)
    requires InRange(f, ref) && 0 <= r <= 3
    ensures var n, x := Divider(f, ref, r), f * Times(r, Div4Of(f)); -ref <= 2 * (n * ref - x) <= ref && n >= 0
    ensures Times(r, Div4Of(f)) == (if f <= 1300000 then 4 else 2) *
                                    (if r == 0 then 2 else if r == 1 then 4 else if r == 2 then 8 else 16)
  {
    NoOverflow(f, r);
    var x := f * Times(r, Div4Of(f));
    assert x >= 0;
    hide Times, PValOf, RDiv, U32;
    TwoSteps(x, ref);
  }

  /** Which dividers the search ends with: the target grows past each of them only for faster clocks. */
  lemma NearestFor40(ref: int, r: int)
    requires 16000 <= ref < 48000 && FirstNearest(ref, 40, r, 4)
    ensures r == 1 || (r == 2 && ref >= 21000) || (r == 3 && ref >= 42000)
  {
    assert Distance(ref, 40, r) <= Distance(ref, 40, 1) && Distance(ref, 40, r) <= Distance(ref, 40, 2);
  }

  lemma NearestFor20(ref: int, r: int)
    requires 16000 <= ref < 48000 && FirstNearest(ref, 20, r, 4)
    ensures r == 2 || (r == 3 && ref >= 21000)
  {
    assert Distance(ref, 20, r) <= Distance(ref, 20, 2) && Distance(ref, 20, r) <= Distance(ref, 20, 3);
  }

  /** N fits its twelve bits over the whole range of frequencies and clocks. */
  lemma DividerFits(f: int, ref: int, r: int)
    requires InRange(f, ref) && FirstNearest(ref, PValOf(f), r, 4)
    ensures 0 <= Divider(f, ref, r) < 0x1000 && 1 <= r <= 3
  {
    var x := f * Times(r, Div4Of(f));
    if f <= 1300000 {
      NearestFor40(ref, r);
      hide FirstNearest;
      assert r == 1 ==> x <= 1300000 * 16;
      assert r == 2 ==> x <= 1300000 * 32;
      assert r == 3 ==> x <= 1300000 * 64;
      assert x <= 2000 * ref;
    } else {
      NearestFor20(ref, r);
      hide FirstNearest;
      assert r == 2 ==> x <= 2150000 * 16;
      assert r == 3 ==> x <= 2150000 * 32;
      assert x <= 3300 * ref;
    }
    DividerIsNearest(f, ref, r);
    hide *;
    Small(Divider(f, ref, r), x, ref);
  }

  lemma Small(n: int, x: int, ref: int)
    requires ref > 0 && 2 * (n * ref - x) <= ref && x <= 3300 * ref
    ensures n < 4096
  {
    if n >= 4096 { Ordered(4096, n, ref); }
  }

  /** The frequency that a divider reads back as, before anything is cut to 32 bits. */
  function Decode(n: int, ref: int, r: int, div4: int): int {
    n * ref / Power(r + div4) / 4
  }

  function Power(e: int): int {
    if e == 0 then 1 else if e == 1 then 2 else if e == 2 then 4 else if e == 3 then 8 else 16
  }

  /** The reading is off by at most half a step of the divider, and by less than 1 kHz more below. */
  ghost predicate Close(x: int, f: int, ref: int, times: int) {
    2 * times * (x - f) <= ref && 2 * times * (f - x) < ref + 2 * times
  }

  lemma RoundTrip(f: int, ref: int, r: int)
    requires InRange(f, ref) && 0 <= r <= 3
    ensures Close(Decode(Divider(f, ref, r), ref, r, Div4Of(f)), f, ref, Times(r, Div4Of(f)))
  {
    DividerIsNearest(f, ref, r);
    var n, times := Divider(f, ref, r), Times(r, Div4Of(f));
    TwoDivisions(n * ref, r, Div4Of(f));
    hide Divider, Times, Div4Of;
    BackWithin(n * ref, f, ref, times);
  }

  lemma TwoDivisions(y: int, r: int, div4: int)
    requires 0 <= r <= 3 && 0 <= div4 <= 1
    ensures y / Power(r + div4) / 4 == y / Times(r, div4) && Times(r, div4) > 0
  {
    assert r == 0 || r == 1 || r == 2 || r == 3;
  }

  lemma BackWithin(y: int, f: int, ref: int, times: int)
    requires times > 0 && -ref <= 2 * (y - f * times) <= ref
    ensures Close(y / times, f, ref, times)
  {
    Euclid(y, times);
    var x := y / times;
    assert times * (x - f) == x * times - f * times;
    assert 2 * times * (x - f) == 2 * (times * (x - f)) && 2 * times * (f - x) == 2 * (f * times - x * times);
  }

  // ---------- the tuner ----------

  /** What the two tuning registers say, taken apart as the reader does. */
  function NOf(tng0: byte, tng1: byte): int {
    NHighField(tng1) as int * 0x100 + GetField(tng0, 0, 8) as int
  }

  function ROf(tng1: byte): int {
    RDivField(tng1) as int
  }

  function DOf(tng1: byte): int {
    Div4Field(tng1) as int
  }

  function Reading(tng0: byte, tng1: byte, ref: int): int {
    U32(NOf(tng0, tng1) * ref) / Power(ROf(tng1) + DOf(tng1)) / 4
  }

  /** The tuning registers stand for these divider settings. */
  ghost predicate Stands(tng0: byte, tng1: byte, n: int, r: int, div4: int, presc: int) {
    NOf(tng0, tng1) == n && ROf(tng1) == r && DOf(tng1) == div4 && PrescField(tng1) as int == presc
  }

  lemma PackedFields(reg: byte, old0: byte, n: int, r: int, div4: int, presc: int)
    requires 0 <= n < 0x1000 && 0 <= r <= 3 && 0 <= div4 <= 1 && 0 <= presc <= 1
    ensures Stands(SetField(old0, 0, 8, ToByte(n % 0x100)),
                   Tng1(reg, ToByte(div4), ToByte(presc), ToByte(r), ToByte(n / 0x100 % 0x100)), n, r, div4, presc)
  {
    ByteBack(n % 0x100);
    ByteBack(n / 0x100);
    ByteBack(r);
    ByteBack(div4);
    ByteBack(presc);
    WholeByte(old0, ToByte(n % 0x100));
    SmallBytes(n / 0x100, r, div4, presc);
    Tng1Fields(reg, ToByte(div4), ToByte(presc), ToByte(r), ToByte(n / 0x100));
    hide SetField, GetField, ToByte, Tng1, Mask;
  }

  /** The band bits as the functions of the frequency give them. */
  lemma BandOf(f: u32, tng1: byte, r: byte)
    requires Div4Field(r) == if f <= 1300000 then 1 else 0
    requires PrescField(r) == if 1023000 < f <= 1300000 || f > 2046000 then 1 else 0
    requires r & 0xcf == tng1 & 0xcf
    ensures r == SetField(SetField(tng1, 4, 1, ToByte(Div4Of(f))), 5, 1, ToByte(PrescOf(f)))
    ensures PValOf(f) == if Div4Field(r) == 1 then 40 else 20
  {
    assert ToByte(0) == 0 && ToByte(1) == 1;
    hide SetField, Div4Field, PrescField;
    BandBits(tng1, ToByte(Div4Of(f)), ToByte(PrescOf(f)), r);
  }

  lemma SmallBytes(high: int, r: int, div4: int, presc: int)
    requires 0 <= high < 16 && 0 <= r <= 3 && 0 <= div4 <= 1 && 0 <= presc <= 1
    ensures ToByte(div4) < 2 && ToByte(presc) < 2 && ToByte(r) < 4 && ToByte(high) < 16
  {
    Below(high, 16);
    Below(r, 4);
    Below(div4, 2);
    Below(presc, 2);
  }

  lemma ControlPacked(reg: byte, k: int)
    requires 0 <= k < 32
    ensures var v := SetField(reg, 3, 5, ToByte(k)); KField(v) as int == k && v & 0x07 == reg & 0x07
  {
    Below(k, 32);
    ByteBack(k);
    ControlField(reg, ToByte(k));
  }

  lemma Below(n: int, limit: byte)
    requires 0 <= n < limit as int
    ensures ToByte(n) < limit
  {
    var v := FindByte(n);
    FromInt(v);
  }

  lemma ReadingFits(n: int, ref: int)
    requires 0 <= n < 0x1000 && 0 < ref < 48000
    ensures U32(n * ref) == n * ref
  {
    Ordered(n, 0x1000, ref);
    Ordered(0, n, ref);
  }

  /** The registers that tuning changes. */
  predicate Tuning(k: int) {
    k == 0 || k == 2 || k == 3 || k == 5
  }

  class Tuner {
    const refclk: nat
    /** The driver's shadow copy of the registers. */
    var regs: seq<byte>
    /** The registers behind the bus. Transfers are taken to succeed. */
    var chip: seq<byte>

    ghost predicate Valid()
      reads this
    {
      |regs| == |chip| == 8 && refclk < 0x1_0000_0000
    }

    constructor (refclk: nat, regs: seq<byte>, chip: seq<byte>)
      requires |regs| == |chip| == 8 && refclk < 0x1_0000_0000
      ensures Valid() && this.refclk == refclk && this.regs == regs && this.chip == chip
    {
      this.refclk, this.regs, this.chip := refclk, regs, chip;
    }

    method WriteReg(reg: nat)
      requires Valid() && reg < 8
      modifies this`chip
      ensures Valid() && chip == old(chip)[reg := regs[reg]]
    {
      chip := chip[reg := regs[reg]];
    }

    /** The band bits of TNG1 and the target of the search for a frequency: below 1300 MHz the local oscillator is
        divided by four and the target doubled; the prescaler is on in the upper part of either half. */
    method SelectBand(frequency: u32, tng1: byte) returns (r: byte, pVal: int)
      ensures Div4Field(r) == if frequency <= 1300000 then 1 else 0
      ensures PrescField(r) == if 1023000 < frequency <= 1300000 || frequency > 2046000 then 1 else 0
      ensures r & 0xcf == tng1 & 0xcf && pVal == if Div4Field(r) == 1 then 40 else 20
    {
      hide SetField, Div4Field, PrescField;
      if frequency <= 1023000 {
        r := SetField(tng1, 4, 1, 1);
        r := SetField(r, 5, 1, 0);
        BandBits(tng1, 1, 0, r);
        pVal := 40;
      } else if frequency <= 1300000 {
        r := SetField(tng1, 4, 1, 1);
        r := SetField(r, 5, 1, 1);
        BandBits(tng1, 1, 1, r);
        pVal := 40;
      } else if frequency <= 2046000 {
        r := SetField(tng1, 4, 1, 0);
        r := SetField(r, 5, 1, 0);
        BandBits(tng1, 0, 0, r);
        pVal := 20;
      } else {
        r := SetField(tng1, 4, 1, 0);
        r := SetField(r, 5, 1, 1);
        BandBits(tng1, 0, 1, r);
        pVal := 20;
      }
    }

    /** The reference divider for a frequency, and the N divider, which fits twelve bits. */
    method ChooseDividers(frequency: u32, ref: int, pVal: int) returns (r: int, n: int)
      requires InRange(frequency, ref) && pVal == PValOf(frequency)
      ensures FirstNearest(ref, PValOf(frequency), r, 4) && n == Divider(frequency, ref, r) && 0 <= n < 0x1000 && 1 <= r <= 3
    {
      hide PCalc, FirstNearest;
      r := NearestDivider(ref, pVal);
      DividerFits(frequency, ref, r);
      n := U32(frequency * RDiv(r) * pVal) / ref;
      n := (n + 5) / 10;
    }

    /** stv6110x_set_frequency, without the wait for the end of the calibration. */
    method SetFrequency(frequency: u32) returns (ghost rDiv: int)
      requires Valid() && InRange(frequency, refclk / 1000)
      modifies this`regs, this`chip
      ensures Valid() && FirstNearest(refclk / 1000, PValOf(frequency), rDiv, 4)
      ensures Stands(regs[2], regs[3], Divider(frequency, refclk / 1000, rDiv), rDiv, Div4Of(frequency), PrescOf(frequency))
      ensures KField(regs[0]) as int == refclk / 1000000 - 16 && regs[0] & 0x07 == old(regs[0]) & 0x07
      ensures regs[5] == old(regs[5]) | 0x04
      ensures forall k | 0 <= k < 8 :: if Tuning(k) then chip[k] == regs[k] else regs[k] == old(regs[k]) && chip[k] == old(chip[k])
    {
      var ref := refclk / 1000;
      ControlPacked(regs[CTRL1], refclk / 1000000 - 16);
      CalibrationBit(regs[STAT1]);
      regs := regs[CTRL1 := SetField(regs[CTRL1], 3, 5, ToByte(refclk / 1000000 - 16))];
      var tng1, pVal := SelectBand(frequency, regs[TNG1]);
      BandOf(frequency, old(regs[TNG1]), tng1);
      regs := regs[TNG1 := tng1];
      var rDivOpt, divider := ChooseDividers(frequency, ref, pVal);
      rDiv := rDivOpt;
      PackedFields(old(regs[TNG1]), regs[TNG0], divider, rDivOpt, Div4Of(frequency), PrescOf(frequency));
      hide SetField, Stands, ToByte, FirstNearest, KField, Divider, InRange, Div4Of, PrescOf, PValOf, Div4Field, PrescField;
      regs := regs[TNG1 := SetField(regs[TNG1], 6, 2, ToByte(rDivOpt))];
      regs := regs[TNG1 := SetField(regs[TNG1], 0, 4, ToByte(divider / 0x100 % 0x100))];
      regs := regs[TNG0 := SetField(regs[TNG0], 0, 8, ToByte(divider % 0x100))];
      regs := regs[STAT1 := SetField(regs[STAT1], 2, 1, 1)];
      WriteBack();
    }

    /** The four registers that tuning changes, sent to the chip in the driver's order. */
    method WriteBack()
      requires Valid()
      modifies this`chip
      ensures Valid()
      ensures forall k | 0 <= k < 8 :: chip[k] == if Tuning(k) then regs[k] else old(chip[k])
    {
      WriteReg(CTRL1);
      WriteReg(TNG1);
      WriteReg(TNG0);
      WriteReg(STAT1);
    }

    /** stv6110x_get_frequency: it reads the tuning registers back into the shadow first. */
    method GetFrequency() returns (frequency: int)
      requires Valid()
      modifies this`regs
      ensures Valid() && regs == old(regs)[3 := chip[3]][2 := chip[2]]
      ensures frequency == Reading(chip[2], chip[3], refclk / 1000)
    {
      regs := regs[TNG1 := chip[TNG1]];
      regs := regs[TNG0 := chip[TNG0]];
      frequency := U32((GetField(regs[TNG1], 0, 4) as int * 0x100 + GetField(regs[TNG0], 0, 8) as int) * (refclk / 1000));
      frequency := frequency / Power(GetField(regs[TNG1], 6, 2) as int + GetField(regs[TNG1], 4, 1) as int);
      frequency := frequency / 4;
    }

    /** Setting a frequency and asking for it. */
    method SetAndGet(f: u32) returns (x: int, ghost rDiv: int)
      requires Valid() && InRange(f, refclk / 1000)
      modifies this`regs, this`chip
      ensures Valid() && FirstNearest(refclk / 1000, PValOf(f), rDiv, 4)
      ensures Close(x, f, refclk / 1000, Times(rDiv, Div4Of(f)))
    {
      rDiv := SetFrequency(f);
      x := GetFrequency();
      DividerFits(f, refclk / 1000, rDiv);
      RoundTrip(f, refclk / 1000, rDiv);
      ReadingFits(Divider(f, refclk / 1000, rDiv), refclk / 1000);
      hide Close, Times, Divider, FirstNearest, NOf, ROf, DOf, PrescField, U32, Power, PValOf, Div4Of;
    }
  }
}
