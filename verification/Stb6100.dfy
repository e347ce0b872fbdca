/** The STB6100 tuner: choosing the synthesiser's words for a frequency, writing them through the register
    template, and computing the frequency back from the registers (dvb-frontends/stb6100.c, stb6100.h). */
module Stb6100 {
  import opened Arithmetic
  import opened Bytes

  const VCO := 1
  const NI := 2
  const NF_LSB := 3
  const K := 4
  const G := 5
  const DLB := 7
  const TEST1 := 8
  const FCCK := 9
  const LPEN := 10
  const TEST3 := 11
  const NUMREGS := 12
  const EREMOTEIO := 121
  const EINVAL := 22

  // ---------- the band table ----------

  datatype Band = Band(low: int, high: int, osm: byte)

  const LKUP_LOW: seq<Band> :=
    [Band(0, 950000, 0x0a), Band(950000, 1000000, 0x0a), Band(1000000, 1075000, 0x0c), Band(1075000, 1200000, 0x00),
     Band(1200000, 1300000, 0x01), Band(1300000, 1370000, 0x02), Band(1370000, 1470000, 0x04)]
  const LKUP_HIGH: seq<Band> :=
    [Band(1470000, 1530000, 0x05), Band(1530000, 1650000, 0x06), Band(1650000, 1800000, 0x08),
     Band(1800000, 1950000, 0x0a), Band(1950000, 2150000, 0x0c), Band(2150000, 9999999, 0x0c), Band(0, 0, 0x00)]
  const LKUP := LKUP_LOW + LKUP_HIGH

  predicate InBand(f: int, b: Band) {
    b.low <= f < b.high
  }

  /** Each band starts where the one before ends; the closing entry has no upper end. */
  ghost predicate Contiguous(t: seq<Band>) {
    && |t| >= 2 && t[0].low == 0 && t[|t| - 1].high == 0
    && (forall i | 0 <= i < |t| - 1 :: t[i].low < t[i].high)
    && (forall i, j | 0 <= i < j < |t| - 1 :: t[i].high <= t[j].low)
    && (forall i | 0 < i < |t| - 1 :: Adjoins(t, i))
  }

  ghost predicate Adjoins(t: seq<Band>, i: int)
    requires 0 < i < |t|
  {
    t[i].low == t[i - 1].high
  }

  lemma LkupCodes()
    ensures |LKUP| == 14 && forall i | 0 <= i < 14 :: LKUP[i].osm & 0xf0 == 0
  {
  }

  lemma LkupContiguous()
    ensures |LKUP| == 14 && Contiguous(LKUP) && LKUP[12].high == 9999999
    ensures forall i | 0 <= i < 14 :: LKUP[i].osm & 0xf0 == 0
  {
    LkupCodes();
  }

  /** The search through the table: it finds a band exactly for the frequencies below the last upper end, and
      the band it finds is the only one. */
  method FindBand(t: seq<Band>, frequency: u32) returns (i: nat)
    requires Contiguous(t)
    ensures i < |t| && (t[i].high == 0 <==> frequency >= t[|t| - 2].high)
    ensures t[i].high != 0 ==> forall k | 0 <= k < |t| :: InBand(frequency, t[k]) <==> k == i
  {
    i := 0;
    while t[i].high != 0 && !InBand(frequency, t[i])
      invariant i < |t|
      invariant i > 0 ==> frequency >= t[i - 1].high
      invariant forall k | 0 <= k < i :: !InBand(frequency, t[k])
      decreases |t| - i
    {
      assert i > 0 ==> Adjoins(t, i);
      i := i + 1;
    }
    if i < |t| - 1 {
      assert i < |t| - 2 ==> t[i].high <= t[|t| - 2].low;
    }
  }

  // ---------- the synthesiser's words ----------

  /** fvco is counted in whole steps of reference << psd2, and in parts of 1/512 of reference on top. */
  datatype Words = Words(odiv: int, psd2: int, nint: int, nfrac: int)

  function OdivOf(f: int): int {
    if f <= 1075000 then 1 else 0
  }

  function Psd2Of(f: int): int {
    if 1075000 < f <= 1325000 then 0 else 1
  }

  /** The local oscillator runs at a half or a quarter of the VCO. */
  function LoDivider(odiv: int): int {
    if odiv == 1 then 4 else 2
  }

  function StepOf(psd2: int, ref: int): int {
    if psd2 == 1 then 2 * ref else ref
  }

  /** 2^(9 - psd2). */
  function Scale(psd2: int): int {
    if psd2 == 1 then 256 else 512
  }

  function FracPart(psd2: int, nfrac: int, ref: int): int {
    nfrac * ref / Scale(psd2)
  }

  /** The frequency that words stand for, in exact arithmetic. */
  function Decode(w: Words, ref: int): int {
    (FracPart(w.psd2, w.nfrac, ref) + w.nint * StepOf(w.psd2, ref)) / LoDivider(w.odiv)
  }

  /** nfrac is the nearest number of parts to d: DIV_ROUND_CLOSEST of d scaled. */
  function Parts(d: int, scale: int, ref: int): int
    requires ref >= 1
  {
    (d * scale + ref / 2) / ref
  }

  function WordsOf(f: int, ref: int): Words
    requires ref >= 1
  {
    var odiv, psd2 := OdivOf(f), Psd2Of(f);
    var fvco, step := f * LoDivider(odiv), StepOf(psd2, ref);
    var nint := fvco / step;
    Words(odiv, psd2, nint, Parts(fvco - nint * step, Scale(psd2), ref))
  }

  /** Rounding to the nearest part moves d by at most half a part, and the division back by less than one. */
  lemma PartsBack(d: int, scale: int, ref: int)
    requires 0 <= d && ref >= 1 && scale >= 2
    ensures var back := Parts(d, scale, ref) * ref / scale;
            2 * scale * (back - d) <= ref && 2 * scale * (d - back) < ref + 2 * scale
  {
    var num := d * scale + ref / 2;
    Euclid(num, ref);
    var total := Parts(d, scale, ref) * ref;
    assert total <= num < total + ref;
    Euclid(total, scale);
    var back := total / scale;
    assert back * scale <= total < back * scale + scale;
    assert 2 * scale * (back - d) == 2 * (back * scale) - 2 * (d * scale);
    assert 2 * scale * (d - back) == 2 * (d * scale) - 2 * (back * scale);
  }

  /** At most 512 parts, which do occur, so nfrac needs ten bits. */
  lemma PartsFit(d: int, psd2: int, ref: int)
    requires 0 <= d < StepOf(psd2, ref) && ref >= 1 && 0 <= psd2 <= 1
    ensures 0 <= d * Scale(psd2) < 512 * ref && 0 <= Parts(d, Scale(psd2), ref) <= 512
  {
    var num := d * Scale(psd2) + ref / 2;
    DivBounds(num, ref, 0, 512);
  }

  lemma WordsRange(f: int, ref: int)
    requires f >= 0 && ref >= 1
    ensures var w := WordsOf(f, ref);
            var d := f * LoDivider(w.odiv) - w.nint * StepOf(w.psd2, ref);
            w.nint >= 0 && 0 <= w.nfrac <= 512 && 0 <= d < StepOf(w.psd2, ref) && w.nfrac == Parts(d, Scale(w.psd2), ref)
  {
    var w := WordsOf(f, ref);
    var fvco, step := f * LoDivider(w.odiv), StepOf(w.psd2, ref);
    Euclid(fvco, step);
    PartsFit(fvco - w.nint * step, w.psd2, ref);
    if w.nint < 0 { Ordered(w.nint, -1, step); }
  }

  /** What the words stand for is never more than half a part above the frequency, and never more than that and
      the rounding of the last division below it. */
  lemma ReadbackError(f: int, ref: int)
    requires f >= 0 && ref >= 1
    ensures var w := WordsOf(f, ref);
            var part := 2 * (Scale(w.psd2) * LoDivider(w.odiv));
            part * (Decode(w, ref) - f) <= ref && part * (f - Decode(w, ref)) < ref + part
  {
    WordsRange(f, ref);
    var w := WordsOf(f, ref);
    var d := f * LoDivider(w.odiv) - w.nint * StepOf(w.psd2, ref);
    PartsBack(d, Scale(w.psd2), ref);
    var back := FracPart(w.psd2, w.nfrac, ref);
    assert back == Parts(d, Scale(w.psd2), ref) * ref / Scale(w.psd2);
    assert back + w.nint * StepOf(w.psd2, ref) == f * LoDivider(w.odiv) + (back - d);
    Scaled(f, LoDivider(w.odiv), Scale(w.psd2), back - d, ref);
  }

  /** The VCO frequency that words stand for, before the division for the local oscillator. */
  function VcoOf(w: Words, ref: int): int {
    if w.psd2 == 1 then w.nfrac * ref / 256 + w.nint * (2 * ref) else w.nfrac * ref / 512 + w.nint * ref
  }

  /** Tuned to f, the VCO runs at four times f up to 1075 MHz and at twice f above, as near as the fraction allows.
      Over the range of satellite receivers this keeps it between 2150 and 4300 MHz. */
  ghost predicate VcoFor(w: Words, f: int, ref: int) {
    var v, fvco, half := VcoOf(w, ref), if f <= 1075000 then 4 * f else 2 * f, if w.psd2 == 1 then 512 else 1024;
    && half * (v - fvco) <= ref && half * (fvco - v) < ref + half
    && (950000 <= f <= 2150000 ==> 512 * (v - 4300000) <= ref && 512 * (2150000 - v) < ref + 512)
  }

  /** The integer part of the VCO frequency fits its eight bits. */
  predicate NintFits(f: int, ref: int) {
    (if f <= 1075000 then 4 * f else 2 * f) < 256 * (if 1075000 < f <= 1325000 then ref else 2 * ref)
  }

  lemma NintKept(f: int, ref: int)
    requires 0 <= f && ref >= 1 && NintFits(f, ref)
    ensures Cut(WordsOf(f, ref)) == WordsOf(f, ref)
  {
    WordsRange(f, ref);
    var w := WordsOf(f, ref);
    var step := StepOf(w.psd2, ref);
    if w.nint >= 256 { Ordered(256, w.nint, step); }
  }

  lemma VcoInBand(v: int, f: int, half: int, ref: int)
    requires (half == 512 || half == 1024) && 950000 <= f <= 2150000 && ref >= 1
    requires var fvco := if f <= 1075000 then 4 * f else 2 * f; half * (v - fvco) <= ref && half * (fvco - v) < ref + half
    ensures 512 * (v - 4300000) <= ref && 512 * (2150000 - v) < ref + 512
  {
  }

  lemma VcoIsNear(f: int, ref: int)
    requires 0 <= f && ref >= 1
    ensures VcoFor(WordsOf(f, ref), f, ref)
  {
    WordsRange(f, ref);
    var w := WordsOf(f, ref);
    var step, fvco := StepOf(w.psd2, ref), f * LoDivider(w.odiv);
    PartsBack(fvco - w.nint * step, Scale(w.psd2), ref);
    assert fvco == if f <= 1075000 then 4 * f else 2 * f;
    hide WordsOf, Parts, LoDivider;
    var v := VcoOf(w, ref);
    assert v == w.nfrac * ref / Scale(w.psd2) + w.nint * step;
    if 950000 <= f <= 2150000 {
      VcoInBand(v, f, 2 * Scale(w.psd2), ref);
    }
  }

  /** At 27 MHz the integer part stays between 49 and 98 over the range of satellite receivers. */
  lemma NintAt27(f: int)
    requires 950000 <= f <= 2150000
    ensures 49 <= WordsOf(f, 27000).nint <= 98 && NintFits(f, 27000)
  {
    var w := WordsOf(f, 27000);
    DivBounds(f * LoDivider(w.odiv), StepOf(w.psd2, 27000), 49, 98);
  }

  lemma Scaled(f: int, p: int, scale: int, e: int, ref: int)
    requires p == 2 || p == 4
    requires scale == 256 || scale == 512
    requires 2 * scale * e <= ref && 2 * scale * -e < ref + 2 * scale
    ensures var x := (f * p + e) / p;
            2 * (scale * p) * (x - f) <= ref && 2 * (scale * p) * (f - x) < ref + 2 * (scale * p)
  {
  }

  /** How far off a reading may be at the 27 MHz reference the drivers are used with, in kHz. */
  predicate Close(x: int, f: int) {
    -27 <= x - f <= 26
  }

  lemma CloseAt27(f: int)
    requires f >= 0
    ensures Close(Decode(WordsOf(f, 27000), 27000), f)
  {
    ReadbackError(f, 27000);
    var w := WordsOf(f, 27000);
    var e := Decode(w, 27000) - f;
    hide Decode, WordsOf;
    var part := 2 * (Scale(w.psd2) * LoDivider(w.odiv));
    assert part >= 1024;
    if e > 26 { Ordered(27, e, part); }
    if e < -27 { Ordered(28, -e, part); }
  }

  /** The register holds the low eight bits of nint. */
  function Cut(w: Words): Words {
    w.(nint := w.nint % 0x100)
  }

  lemma CutExactly(f: u32)
    requires f < 9999999
    ensures WordsOf(f, 27000).nint == Cut(WordsOf(f, 27000)).nint <==> f < 6912000
    ensures f >= 6912000 ==> 256 <= WordsOf(f, 27000).nint < 512
  {
    var w, fvco := WordsOf(f, 27000), f * LoDivider(OdivOf(f));
    var step := StepOf(w.psd2, 27000);
    if f < 6912000 {
      DivBounds(fvco, step, 0, 255);
    } else {
      DivBounds(fvco, step, 256, 511);
    }
  }

  /** At 27 MHz the registers give the frequency back, to within 27 kHz, exactly below 6.912 GHz: from there on
      the integer part needs a ninth bit. The tuner's own band table goes on to 9.999999 GHz. */
  lemma RoundTripAt27(f: u32)
    requires f < 9999999
    ensures Close(Decode(Cut(WordsOf(f, 27000)), 27000), f) <==> f < 6912000
  {
    CutExactly(f);
    CloseAt27(f);
    WordsRange(f, 27000);
    if f >= 6912000 {
      var w := WordsOf(f, 27000);
      assert w.odiv == 0 && w.psd2 == 1 && Cut(w).nint == w.nint - 256;
      LostTurn(FracPart(1, w.nfrac, 27000), w.nint);
    }
  }

  lemma LostTurn(part: int, nint: int)
    ensures (part + (nint - 256) * 54000) / 2 == (part + nint * 54000) / 2 - 6912000
  {
  }

  // ---------- the registers ----------

  datatype Template = Template(mask: byte, fixed: byte)

  const TEMPLATE: seq<Template> :=
    [Template(0xff, 0x00), Template(0xff, 0x00), Template(0xff, 0x00), Template(0xff, 0x00),
     Template(0xc7, 0x38), Template(0xef, 0x10), Template(0x1f, 0xc0), Template(0x38, 0xc4)] +
    [Template(0x00, 0x8f), Template(0x40, 0x0d), Template(0xf0, 0x0b), Template(0x00, 0xde)]

  /** What reaches register reg when data is written to it. */
  function Normalised(reg: int, data: byte): byte
    requires 0 <= reg < NUMREGS
  {
    (data & TEMPLATE[reg].mask) | TEMPLATE[reg].fixed
  }

  function OdivBits(odiv: int): byte {
    if odiv == 1 then 0x10 else 0x00
  }

  function Psd2Bits(psd2: int): byte {
    if psd2 == 1 then 0x04 else 0x00
  }

  /** The fields of the registers as the reader takes them apart. */
  function ReadWords(regs: seq<byte>): Words
    requires |regs| == NUMREGS
  {
    Words(OdivField(regs[1]), Psd2Field(regs[4]), regs[2] as int, MsbField(regs[4]) * 0x100 + regs[3] as int)
  }

  function OdivField(vco: byte): int {
    ((vco & 0x10) >> 4) as int
  }

  function Psd2Field(k: byte): int {
    ((k & 0x04) >> 2) as int
  }

  function MsbField(k: byte): int {
    (k & 0x03) as int
  }

  /** The last value written to the VCO register: searches off, the divider and the oscillator choice kept. */
  function VcoByte(odiv: int, osm: byte): byte {
    0x60 | OdivBits(odiv) | osm
  }

  function KByte(psd2: int, msb: byte): byte {
    0x38 | Psd2Bits(psd2) | msb
  }

  lemma VcoFields(odiv: int, osm: byte)
    requires 0 <= odiv <= 1 && osm & 0xf0 == 0
    ensures OdivField(VcoByte(odiv, osm)) == odiv && VcoByte(odiv, osm) & 0x0f == osm
    ensures VcoByte(odiv, osm) & 0xe0 == 0x60
  {
    var v := VcoByte(odiv, osm);
    assert osm & 0x10 == 0;
    assert odiv == 1 ==> v & 0x10 == 0x10;
    assert odiv == 0 ==> v & 0x10 == 0;
  }

  lemma KFields(psd2: int, msb: int)
    requires 0 <= psd2 <= 1 && 0 <= msb <= 2
    ensures Psd2Field(KByte(psd2, ToByte(msb))) == psd2 && MsbField(KByte(psd2, ToByte(msb))) == msb
  {
    assert ToByte(0) == 0 && ToByte(1) == 1 && ToByte(2) == 2;
  }

  /** The baseband gain for a symbol rate. */
  function Gain(srate: u32): byte {
    if srate >= 15000000 then 9 else if srate >= 5000000 then 11 else 14
  }

  /** The registers hold everything that tuning to f is to leave in them. */
  ghost predicate Tuned(regs: seq<byte>, before: seq<byte>, f: u32, srate: u32, ref: int)
    requires ref >= 1
  {
    && |regs| == |before| == NUMREGS
    && ReadWords(regs) == Cut(WordsOf(f, ref))
    && (exists i :: 0 <= i < |LKUP| && InBand(f, LKUP[i]) && regs[1] & 0x0f == LKUP[i].osm)
    && regs[1] & 0xe0 == 0x60 && regs[4] & 0xf8 == 0x38 && regs[7] == 0xcc
    && regs[8] == 0x8f && regs[11] == 0xde && regs[10] == 0xfb && regs[9] == 0x0d
    && regs[5] == (if srate >= 15000000 then 0x39 else if srate >= 5000000 then 0x3b else 0x3e)
    && regs[0] == before[0] && regs[6] == before[6]
  }

  lemma PlainRegisters(v: byte)
    ensures Normalised(VCO, v) == v && Normalised(NI, v) == v && Normalised(NF_LSB, v) == v
  {
    assert (v & 0xff) | 0 == v;
  }

  lemma TemplateOf(v: byte)
    ensures Normalised(K, v) == (v & 0xc7) | 0x38 && Normalised(G, v) == (v & 0xef) | 0x10
    ensures Normalised(DLB, v) == (v & 0x38) | 0xc4 && Normalised(TEST1, v) == 0x8f
    ensures Normalised(FCCK, v) == (v & 0x40) | 0x0d && Normalised(LPEN, v) == (v & 0xf0) | 0x0b
    ensures Normalised(TEST3, v) == 0xde
  {
    assert (v & 0x00) | 0x8f == 0x8f && (v & 0x00) | 0xde == 0xde;
  }

  /** The template leaves the constants the driver writes as they are. */
  lemma ConstantsKept()
    ensures Normalised(FCCK, 0x4d | 0x40) == 0x4d && Normalised(FCCK, 0x0d) == 0x0d
    ensures Normalised(LPEN, 0xeb) == 0xeb && Normalised(LPEN, 0xfb) == 0xfb && Normalised(DLB, 0xcc) == 0xcc
  {
    TemplateOf(0x4d | 0x40);
    TemplateOf(0x0d);
    TemplateOf(0xeb);
    TemplateOf(0xfb);
    TemplateOf(0xcc);
  }

  function VcoStart(odiv: int, osm: byte): byte {
    ((0xe0 | OdivBits(odiv)) & !0x0f) | osm
  }

  lemma VcoSteps(odiv: int, osm: byte)
    requires osm & 0xf0 == 0
    ensures ((VcoStart(odiv, osm) & !0x60) & !0x80) | 0x60 == VcoByte(odiv, osm)
  {
    var bits := OdivBits(odiv);
    assert bits == 0x10 || bits == 0;
    if odiv == 1 {
      assert ((((((0xe0 | 0x10) & !0x0f) | osm) & !0x60) & !0x80) | 0x60) == 0x60 | 0x10 | osm;
    } else {
      assert (((((0xe0 & !0x0f) | osm) & !0x60) & !0x80) | 0x60) == 0x60 | osm;
    }
  }

  lemma KStep(psd2: int, msb: byte)
    requires msb & 0xfc == 0
    ensures Normalised(K, (((0x38 & !0x04) | Psd2Bits(psd2)) & !0x03) | msb) == KByte(psd2, msb)
  {
    var bits := Psd2Bits(psd2);
    var v := (((0x38 & !0x04) | bits) & !0x03) | msb;
    TemplateOf(v);
    assert bits == 0x04 || bits == 0;
    assert ((((((0x38 & !0x04) | 0x04) & !0x03) | msb) & 0xc7) | 0x38) == 0x38 | 0x04 | msb;
    assert (((((0x38 & !0x04) & !0x03) | msb) & 0xc7) | 0x38) == 0x38 | msb;
  }

  lemma GStep(g: byte)
    requires g & 0xf0 == 0
    ensures Normalised(G, (((0x10 & !0x0f) | g) & !0xe0) | 0x20) == 0x30 | g
  {
    TemplateOf((((0x10 & !0x0f) | g) & !0xe0) | 0x20);
  }

  /** The reading computed in 32 bits. */
  function DecodeU32(w: Words, ref: int): int {
    U32(U32(w.nfrac * ref) / Scale(w.psd2) + U32(w.nint * StepOf(w.psd2, ref))) / LoDivider(w.odiv)
  }

  /** Words that a call of the setter left behind do not overflow. */
  lemma DecodeFits(w: Words, ref: int)
    requires 1 <= ref <= 4294967 && 0 <= w.nint < 0x100 && 0 <= w.nfrac <= 512
    ensures DecodeU32(w, ref) == Decode(w, ref)
  {
    var x, y := w.nfrac * ref, w.nint * StepOf(w.psd2, ref);
    Times(w.nfrac, 512, ref);
    Times(w.nint, 255, StepOf(w.psd2, ref));
    assert 0 <= x <= 512 * ref && 0 <= y <= 255 * (2 * ref);
    SumFits(x, y, Scale(w.psd2), ref);
  }

  lemma SumFits(x: int, y: int, scale: int, ref: int)
    requires 1 <= ref <= 4294967 && (scale == 256 || scale == 512)
    requires 0 <= x <= 512 * ref && 0 <= y <= 255 * (2 * ref)
    ensures U32(U32(x) / scale + U32(y)) == x / scale + y
  {
  }

  lemma Times(a: int, b: int, d: int)
    requires 0 <= a <= b && d >= 0
    ensures 0 <= a * d <= b * d
  {
  }

  class Tuner {
    const reference: u32
    var regs: seq<byte>
    var frequency: u32

    /** The reference is a 32-bit clock rate in Hz divided by a thousand. */
    ghost predicate Valid()
      reads this
    {
      |regs| == NUMREGS && 1 <= reference <= 4294967
    }

    constructor (reference: u32, regs: seq<byte>)
      requires 1 <= reference <= 4294967 && |regs| == NUMREGS
      ensures Valid() && this.reference == reference && this.regs == regs
    {
      this.reference, this.regs, frequency := reference, regs, 0;
    }

    /** stb6100_write_reg and the range check below it: register 0 cannot be written. The bus transfer is taken to
        succeed. */
    method WriteReg(reg: int, data: byte) returns (rc: int)
      requires Valid() && reg >= 0
      modifies this`regs
      ensures Valid()
      ensures if reg >= NUMREGS then rc == -EREMOTEIO && regs == old(regs)
              else if reg == 0 then rc == -EINVAL && regs == old(regs)
              else rc == 0 && regs == old(regs)[reg := Normalised(reg, data)]
    {
      if reg >= NUMREGS {
        return -EREMOTEIO;
      }
      if reg < 1 {
        return -EINVAL;
      }
      regs := regs[reg := (data & TEMPLATE[reg].mask) | TEMPLATE[reg].fixed];
      return 0;
    }

    /** The four words for a frequency, with no overflow on the way. */
    method Compute(frequency: u32) returns (w: Words)
      requires Valid() && frequency < 9999999
      ensures w == WordsOf(frequency, reference)
    {
      var odiv := if frequency <= 1075000 then 1 else 0;
      var psd2 := if frequency > 1075000 && frequency <= 1325000 then 0 else 1;
      var fvco: u32 := frequency * LoDivider(odiv);
      var step: u32 := StepOf(psd2, reference);
      var nint := fvco / step;
      WordsRange(frequency, reference);
      PartsFit(fvco - nint * step, psd2, reference);
      var scaled: u32 := (fvco - nint * step) * Scale(psd2);
      var rounded: u32 := scaled + reference / 2;
      var nfrac := rounded / reference;
      w := Words(odiv, psd2, nint, nfrac);
    }

    /** NI, NF and K. */
    method WriteWords(w: Words)
      requires Valid() && 0 <= w.nint && 0 <= w.nfrac <= 512 && 0 <= w.psd2 <= 1
      modifies this`regs
      ensures Valid()
      ensures regs == old(regs)[NI := ToByte(w.nint % 0x100)][NF_LSB := ToByte(w.nfrac % 0x100)]
                      [K := KByte(w.psd2, ToByte(w.nfrac / 0x100))]
    {
      MsbSmall(w.nfrac / 0x100);
      KStep(w.psd2, ToByte(w.nfrac / 0x100));
      PlainRegisters(ToByte(w.nint % 0x100));
      PlainRegisters(ToByte(w.nfrac % 0x100));
      hide *;
      var rc := WriteReg(NI, ToByte(w.nint % 0x100));
      rc := WriteReg(NF_LSB, ToByte(w.nfrac % 0x100));
      rc := WriteReg(K, (((0x38 & !0x04) | Psd2Bits(w.psd2)) & !0x03) | ToByte(w.nfrac / 0x100));
    }

    /** The VCO in three steps around the wait for the lock; the last value remains. */
    method StartVco(odiv: int, osm: byte)
      requires Valid() && osm & 0xf0 == 0
      modifies this`regs
      ensures Valid() && regs == old(regs)[LPEN := 0xfb][VCO := VcoByte(odiv, osm)][FCCK := 0x0d]
    {
      var vco := VcoStart(odiv, osm);
      ConstantsKept();
      VcoSteps(odiv, osm);
      PlainRegisters(vco & !0x60);
      PlainRegisters(((vco & !0x60) & !0x80) | 0x60);
      hide *;
      var rc := WriteReg(LPEN, 0xfb);
      vco := vco & !0x60;
      rc := WriteReg(VCO, vco);
      vco := (vco & !0x80) | 0x60;
      rc := WriteReg(VCO, vco);
      rc := WriteReg(FCCK, 0x0d);
    }

    /** The gain and the registers that always get the same value. */
    method WriteRest(srate: u32)
      requires Valid()
      modifies this`regs
      ensures Valid()
      ensures regs == old(regs)[G := 0x30 | Gain(srate)][DLB := 0xcc][TEST1 := 0x8f][TEST3 := 0xde]
    {
      var g := if srate >= 15000000 then 9 else if srate >= 5000000 then 11 else 14;
      GStep(g);
      ConstantsKept();
      TemplateOf(0x8f);
      TemplateOf(0xde);
      assert g == Gain(srate);
      hide *;
      var rc := WriteReg(G, (((0x10 & !0x0f) | g) & !0xe0) | 0x20);
      rc := WriteReg(DLB, 0xcc);
      rc := WriteReg(TEST1, 0x8f);
      rc := WriteReg(TEST3, 0xde);
    }

    /** stb6100_set_frequency. A frequency outside the band table is refused after two registers have been written. */
    method SetFrequency(frequency: u32, srate: u32) returns (rc: int)
      requires Valid()
      modifies this`regs
      ensures Valid() && (rc == if frequency < 9999999 then 0 else -EINVAL)
      ensures rc != 0 ==> regs == old(regs)[9 := 0x4d][10 := 0xeb]
      ensures rc == 0 ==> Tuned(regs, old(regs), frequency, srate, reference)
      ensures rc == 0 ==> (regs[1] & 0x10 != 0 <==> frequency <= 1075000)
      ensures rc == 0 ==> (regs[4] & 0x04 == 0 <==> 1075000 < frequency <= 1325000)
      ensures rc == 0 && NintFits(frequency, reference) ==> VcoFor(ReadWords(regs), frequency, reference)
      ensures 950000 <= frequency <= 2150000 && reference == 27000 ==>
                NintFits(frequency, reference) && 49 <= regs[2] as int <= 98
    {
      ConstantsKept();
      LkupContiguous();
      hide WordsOf, LKUP, LKUP_LOW, LKUP_HIGH, Contiguous, Normalised, TEMPLATE, Tuned, Gain, VcoStart, VcoByte, KByte, ToByte;
      rc := WriteReg(FCCK, 0x4d | 0x40);
      rc := WriteReg(LPEN, 0xeb);
      var i := FindBand(LKUP, frequency);
      if LKUP[i].high == 0 {
        return -EINVAL;
      }
      var w := Compute(frequency);
      RangeOf(frequency, reference);
      PlainRegisters(VcoStart(w.odiv, LKUP[i].osm));
      rc := WriteReg(VCO, VcoStart(w.odiv, LKUP[i].osm));
      WriteWords(w);
      WriteRest(srate);
      StartVco(w.odiv, LKUP[i].osm);
      LeavesTuned(old(regs), regs, frequency, srate, reference, i);
      DividersSet(regs, old(regs), frequency, srate, reference);
      return 0;
    }

    /** stb6100_get_frequency. */
    method GetFrequency() returns (x: u32)
      requires Valid()
      modifies this`frequency
      ensures Valid() && frequency == x == DecodeU32(ReadWords(regs), reference)
    {
      var odiv, psd2 := ((regs[VCO] & 0x10) >> 4) as int, ((regs[K] & 0x04) >> 2) as int;
      var nint := regs[NI] as int;
      var nfrac := (regs[K] & 0x03) as int * 0x100 + regs[NF_LSB] as int;
      var fvco := U32(U32(nfrac * reference) / Scale(psd2) + U32(nint * StepOf(psd2, reference)));
      x := fvco / LoDivider(odiv);
      frequency := x;
    }

    /** Setting a frequency and asking for it. */
    method SetAndGet(f: u32, srate: u32) returns (x: u32)
      requires Valid() && f < 9999999
      modifies this
      ensures Valid() && x == Decode(Cut(WordsOf(f, reference)), reference)
      ensures reference == 27000 ==> (Close(x, f) <==> f < 6912000)
    {
      WordsRange(f, reference);
      if reference == 27000 {
        RoundTripAt27(f);
      }
      DecodeFits(Cut(WordsOf(f, reference)), reference);
      hide WordsOf, Decode, DecodeU32, Close;
      var rc := SetFrequency(f, srate);
      x := GetFrequency();
    }
  }

  lemma MsbSmall(m: int)
    requires 0 <= m <= 2
    ensures ToByte(m) & 0xfc == 0
  {
    assert ToByte(0) == 0 && ToByte(1) == 1 && ToByte(2) == 2;
  }

  lemma RangeOf(f: int, ref: int)
    requires f >= 0 && ref >= 1
    ensures var w := WordsOf(f, ref);
            w.nint >= 0 && 0 <= w.nfrac <= 512 && w.odiv == OdivOf(f) && w.psd2 == Psd2Of(f) && 0 <= w.psd2 <= 1 && 0 <= w.odiv <= 1
  {
    WordsRange(f, ref);
  }

  lemma LeavesTuned(before: seq<byte>, regs: seq<byte>, f: u32, srate: u32, ref: int, i: nat)
    requires |before| == NUMREGS && ref >= 1 && i < |LKUP| && InBand(f, LKUP[i])
    requires var w := WordsOf(f, ref);
             && 0 <= w.nint && 0 <= w.nfrac <= 512
             && regs == before[FCCK := 0x4d][LPEN := 0xeb][VCO := VcoStart(w.odiv, LKUP[i].osm)]
                        [NI := ToByte(w.nint % 0x100)][NF_LSB := ToByte(w.nfrac % 0x100)]
                        [K := KByte(w.psd2, ToByte(w.nfrac / 0x100))]
                        [G := 0x30 | Gain(srate)][DLB := 0xcc][TEST1 := 0x8f][TEST3 := 0xde]
                        [LPEN := 0xfb][VCO := VcoByte(w.odiv, LKUP[i].osm)][FCCK := 0x0d]
    ensures Tuned(regs, before, f, srate, ref)
  {
    var w, osm := WordsOf(f, ref), LKUP[i].osm;
    LkupContiguous();
    RangeOf(f, ref);
    FieldsBack(w, osm);
    GainByte(srate);
    hide WordsOf, LKUP, LKUP_LOW, LKUP_HIGH, OdivField, Psd2Field, MsbField, VcoByte, VcoStart, KByte, ToByte, Gain;
    assert regs[VCO] == VcoByte(w.odiv, osm) && regs[NI] == ToByte(w.nint % 0x100);
    assert regs[NF_LSB] == ToByte(w.nfrac % 0x100) && regs[K] == KByte(w.psd2, ToByte(w.nfrac / 0x100));
    assert ReadWords(regs) == Cut(w);
  }

  lemma GainByte(srate: u32)
    ensures 0x30 | Gain(srate) == (if srate >= 15000000 then 0x39 else if srate >= 5000000 then 0x3b else 0x3e)
  {
  }

  lemma FieldBits(v: byte)
    ensures OdivField(v) == (if v & 0x10 != 0 then 1 else 0) && Psd2Field(v) == (if v & 0x04 != 0 then 1 else 0)
  {
    assert v & 0x10 == 0 || v & 0x10 == 0x10;
    assert v & 0x04 == 0 || v & 0x04 == 0x04;
    assert ((0x10 as byte) >> 4) == 1 && ((0x04 as byte) >> 2) == 1;
  }

  /** The two divider bits and the VCO frequency, in terms of the frequency alone. */
  lemma DividersSet(regs: seq<byte>, before: seq<byte>, f: u32, srate: u32, ref: int)
    requires ref >= 1 && Tuned(regs, before, f, srate, ref) && f < 9999999
    ensures regs[1] & 0x10 != 0 <==> f <= 1075000
    ensures regs[4] & 0x04 == 0 <==> 1075000 < f <= 1325000
    ensures NintFits(f, ref) ==> VcoFor(ReadWords(regs), f, ref)
    ensures 950000 <= f <= 2150000 && ref == 27000 ==> NintFits(f, ref) && 49 <= regs[2] as int <= 98
  {
    FieldBits(regs[1]);
    FieldBits(regs[4]);
    RangeOf(f, ref);
    VcoIsNear(f, ref);
    if NintFits(f, ref) {
      NintKept(f, ref);
    }
    if 950000 <= f <= 2150000 {
      NintAt27(f);
      NintKept(f, 27000);
    }
    hide WordsOf, VcoFor, NintFits, LKUP, OdivField, Psd2Field, MsbField;
    assert ReadWords(regs) == Cut(WordsOf(f, ref));
  }

  /** What the setter packs into the fields comes out of them, and the remaining bits are the fixed ones. */
  lemma FieldsBack(w: Words, osm: byte)
    requires 0 <= w.odiv <= 1 && 0 <= w.psd2 <= 1 && 0 <= w.nint && 0 <= w.nfrac <= 512 && osm & 0xf0 == 0
    ensures OdivField(VcoByte(w.odiv, osm)) == w.odiv && VcoByte(w.odiv, osm) & 0x0f == osm
    ensures VcoByte(w.odiv, osm) & 0xe0 == 0x60 && ToByte(w.nint % 0x100) as int == w.nint % 0x100
    ensures var k := KByte(w.psd2, ToByte(w.nfrac / 0x100));
            && Psd2Field(k) == w.psd2 && k & 0xf8 == 0x38
            && MsbField(k) * 0x100 + ToByte(w.nfrac % 0x100) as int == w.nfrac
  {
    VcoFields(w.odiv, osm);
    KFields(w.psd2, w.nfrac / 0x100);
    KUpper(w.psd2, w.nfrac / 0x100);
    ByteBack(w.nint % 0x100);
    ByteBack(w.nfrac % 0x100);
    hide *;
  }

  lemma KUpper(psd2: int, msb: int)
    requires 0 <= msb <= 2
    ensures KByte(psd2, ToByte(msb)) & 0xf8 == 0x38
  {
    assert ToByte(0) == 0 && ToByte(1) == 1 && ToByte(2) == 2;
  }
}
