/** How Si5351 parameter words become register bytes, and what programming one output does to the
    whole register file (dvb-frontends/m88rs6060.c, si5351_set_freq). */
module Si5351Device {
  import opened Arithmetic
  import opened Si5351

  const CLK0_CTRL := 16
  const PLL_PARAMETERS := 26
  const CLK0_PARAMETERS := 42

  datatype Pll = PllA | PllB

  /** The eight bytes of one parameter block; words wider than their field lose their top bits. */
  function Pack(reg: RegSet): (bytes: seq<u8>)
    ensures |bytes| == 8
  {
    [ reg.p3 / 0x100 % 0x100,
      reg.p3 % 0x100,
      reg.p1 / 0x1_0000 % 4,
      reg.p1 / 0x100 % 0x100,
      reg.p1 % 0x100,
      reg.p3 / 0x1_0000 % 16 * 16 + reg.p2 / 0x1_0000 % 16,
      reg.p2 / 0x100 % 0x100,
      reg.p2 % 0x100 ]
  }

  /** The words the chip reads out of a parameter block. */
  function Unpack(bytes: seq<u8>): RegSet
    requires |bytes| == 8
  {
    RegSet(Word(bytes[2] % 4, bytes[3], bytes[4]),
           Word(bytes[5] % 16, bytes[6], bytes[7]),
           Word(bytes[5] / 16, bytes[0], bytes[1]))
  }

  function Word(high: int, mid: int, low: int): int {
    high * 0x1_0000 + mid * 0x100 + low
  }

  /** The word of which a field keeps the lowest bits of the upper part. */
  function Kept(w: u32, top: nat): int
    requires top >= 1
  {
    Word(w / 0x1_0000 % top, w / 0x100 % 0x100, w % 0x100)
  }

  lemma UnpackedWords(reg: RegSet)
    ensures Unpack(Pack(reg)) == RegSet(Kept(reg.p1, 4), Kept(reg.p2, 16), Kept(reg.p3, 16))
  {
    var bytes := Pack(reg);
    var top1, top2, top3 := reg.p1 / 0x1_0000 % 4, reg.p2 / 0x1_0000 % 16, reg.p3 / 0x1_0000 % 16;
    assert bytes[2] == top1 && bytes[5] == top3 * 16 + top2;
    assert bytes[3] == reg.p1 / 0x100 % 0x100 && bytes[4] == reg.p1 % 0x100;
    assert bytes[6] == reg.p2 / 0x100 % 0x100 && bytes[7] == reg.p2 % 0x100;
    assert bytes[0] == reg.p3 / 0x100 % 0x100 && bytes[1] == reg.p3 % 0x100;
    NibblesSurvive(top3, top2);
    hide Word, Pack;
    UnpackOf(bytes, top1, top2, top3);
  }

  lemma UnpackOf(bytes: seq<u8>, top1: int, top2: int, top3: int)
    requires |bytes| == 8 && bytes[2] == top1 && 0 <= top1 < 4 && bytes[5] / 16 == top3 && bytes[5] % 16 == top2
    ensures Word(top1, bytes[3], bytes[4]) == Unpack(bytes).p1 && Word(top2, bytes[6], bytes[7]) == Unpack(bytes).p2
    ensures Word(top3, bytes[0], bytes[1]) == Unpack(bytes).p3
  {
    assert bytes[2] % 4 == top1;
  }

  lemma PackedWordsSurvive(reg: RegSet)
    ensures Unpack(Pack(reg)) == reg <==> reg.Fits()
  {
    UnpackedWords(reg);
    hide Pack, Unpack, Kept;
    KeptExactly(reg.p1, 4);
    KeptExactly(reg.p2, 16);
    KeptExactly(reg.p3, 16);
  }

  lemma TwoBits(reg: RegSet)
    ensures var b: int := Pack(reg)[2]; b % 4 == b
  {
    var b := reg.p1 / 0x1_0000 % 4;
    assert b % 4 == b;
  }

  /** Which bytes of a block make up which word, the highest first. */
  lemma Layout(reg: RegSet)
    requires reg.Fits()
    ensures var b := Pack(reg);
            reg.p1 == Word(b[2], b[3], b[4]) &&
            reg.p2 == Word(b[5] % 16, b[6], b[7]) && reg.p3 == Word(b[5] / 16, b[0], b[1])
  {
    hide Pack, Word;
    PackedWordsSurvive(reg);
    TwoBits(reg);
  }

  lemma NibblesSurvive(x: nat, y: nat)
    requires x < 16 && y < 16
    ensures (x * 16 + y) / 16 == x && (x * 16 + y) % 16 == y
  {
  }

  lemma ThreeDigits(w: nat)
    ensures w == Word(w / 0x1_0000, w / 0x100 % 0x100, w % 0x100) && w / 0x1_0000 >= 0
  {
    var rest, low := DivMod(w, 0x100);
    var high, mid := DivMod(rest, 0x100);
    DivUnique(w, 0x1_0000, high);
  }

  lemma KeptExactly(w: u32, top: nat)
    requires top >= 1
    ensures Kept(w, top) == w <==> w < top * 0x1_0000
  {
    ThreeDigits(w);
    var all := w / 0x1_0000;
    var high := all % top;
    Remainder(all, top);
    DigitBelow(w, all, top);
    Compare(high, all, w / 0x100 % 0x100, w % 0x100);
  }

  lemma Remainder(x: nat, top: nat)
    requires top >= 1
    ensures x % top == x <==> x < top
  {
    Divided(x, top);
    if x < top { DivUnique(x, top, 0); }
  }

  lemma DigitBelow(w: nat, all: nat, top: nat)
    requires all == w / 0x1_0000
    ensures all < top <==> w < top * 0x1_0000
  {
    Euclid(w, 0x1_0000);
  }

  lemma Compare(high: int, all: int, mid: int, low: int)
    ensures Word(high, mid, low) == Word(all, mid, low) <==> high == all
  {
  }

  /** Where the parameter block of an output starts. The blocks of outputs 6 and 7 are one byte long. */
  function ParameterBase(clk: nat): (base: nat)
    requires clk < 8
    ensures 42 <= base <= 247
    ensures clk <= 6 ==> base == 42 + 8 * clk
    ensures clk == 7 ==> base == 91
  {
    if clk == 7 then 91 else CLK0_PARAMETERS + 8 * clk
  }

  /** The divider and PLL frequency are what the calculators give for an explicit or absent PLL request. */
  ghost predicate Requested(freq: u32, pllFreq: u32, pll: u32, ms: RegSet) {
    if pllFreq == 0 then PickedPll(freq, pll, ms) else pll == pllFreq && Recalculated(freq, pll, ms)
  }

  /** From output 2 on, a PLL frequency already stored for the second PLL takes the place of the request. */
  ghost predicate Chosen(freq: u32, pllFreq: u32, stored: u32, clk: nat, pll: u32, ms: RegSet) {
    if clk >= 2 && stored != 0 then pll == stored && Recalculated(freq, pll, ms)
    else Requested(freq, pllFreq, pll, ms)
  }

  /** None of the calculations of a call divides by zero. */
  predicate Divisible(freq: u32, pllFreq: u32, stored: u32, clk: nat) {
    && (pllFreq != 0 ==> NoZeroDivide(freq, pllFreq))
    && (clk >= 2 && stored != 0 ==> NoZeroDivide(freq, stored))
  }

  /** The words can be told from the eight bytes. */
  predicate Readable(freq: u32, pll: u32) {
    ClampOutput(freq) > 150000000 || 4 <= pll / ClampOutput(freq) <= 2051
  }

  lemma ChosenFits(freq: u32, pllFreq: u32, stored: u32, clk: nat, pll: u32, ms: RegSet)
    requires Chosen(freq, pllFreq, stored, clk, pll, ms)
    ensures ms.Fits() <==> Readable(freq, pll)
  {
    if PickedPll(freq, pll, ms) {
      PickedFits(freq, pll, ms);
    } else if ClampOutput(freq) <= MULTISYNTH_DIVBY4_FREQ {
      RecalcExactly(freq, pll, ms);
    }
    hide Tracks;
  }

  lemma PickedFits(freq: u32, pll: u32, ms: RegSet)
    requires PickedPll(freq, pll, ms)
    ensures ms.Fits() && Readable(freq, pll)
  {
    var f := ClampOutput(freq);
    if f <= MULTISYNTH_DIVBY4_FREQ {
      var a := (ms.p1 + 512) / 128;
      DivUnique(pll, f, a);
      QuotientBounds(pll, f, a, 4, 900);
    }
  }

  /** A parameter block holds the words that were chosen, and they can be told from it exactly if readable. */
  ghost predicate Programmed(block: seq<u8>, freq: u32, pllFreq: u32, stored: u32, clk: nat, pll: u32)
    requires |block| == 8
  {
    exists ms: RegSet :: Chosen(freq, pllFreq, stored, clk, pll, ms) && block == Pack(ms) &&
                         (Unpack(block) == ms <==> Readable(freq, pll))
  }

  class Chip {
    const regs: array<u8>
    var pllaFreq: u32
    var pllbFreq: u32

    constructor ()
      ensures regs.Length == 256 && fresh(regs) && Valid()
    {
      regs := new u8[256];
      pllaFreq, pllbFreq := 0, 0;
    }

    ghost predicate Valid()
      reads this
    {
      regs.Length == 256
    }

    method WriteBulk(base: nat, bytes: seq<u8>)
      requires regs.Length == 256 && base + |bytes| <= 256
      modifies regs
      ensures regs[..] == old(regs[..base]) + bytes + old(regs[base + |bytes|..])
    {
      for i := 0 to |bytes|
        invariant regs[..] == old(regs[..base]) + bytes[..i] + old(regs[base + i..])
      {
        regs[base + i] := bytes[i];
      }
    }

    /** The PLL block is written only when the calculated rate is zero. */
    method WritePll(rate: u32, reg: RegSet, target: Pll)
      requires regs.Length == 256
      modifies regs
      ensures rate != 0 ==> regs[..] == old(regs[..])
      ensures rate == 0 ==>
        var base := if target.PllA? then 26 else 34;
        regs[..] == old(regs[..base]) + (Pack(reg) + [0]) + old(regs[base + 9..])
    {
      if rate == 0 {
        WriteBulk(if target.PllA? then PLL_PARAMETERS else PLL_PARAMETERS + 8, Pack(reg) + [0]);
      }
    }

    /** Chooses the PLL frequency for an output, records it, and computes the output's divider. */
    method ChooseDivider(freq: u32, pllFreq: u32, clk: nat) returns (pll: u32, ms: RegSet)
      requires Valid() && Divisible(freq, pllFreq, pllbFreq, clk)
      modifies this
      ensures Valid() && Chosen(freq, pllFreq, old(pllbFreq), clk, pll, ms)
      ensures if clk == 0 then pllaFreq == pll && pllbFreq == old(pllbFreq)
              else pllbFreq == pll && pllaFreq == old(pllaFreq)
    {
      hide Recalculated, PickedPll, NoZeroDivide;
      var msRate;
      pll := pllFreq;
      if pll == 0 {
        pll, ms := MultisynthCalc(freq);
      } else {
        msRate, ms := MultisynthRecalc(freq, pll);
      }
      if clk == 0 {
        pllaFreq := pll;
      } else if clk == 1 {
        pllbFreq := pll;
      } else if pllbFreq == 0 {
        pllbFreq := pll;
      } else {
        pll := pllbFreq;
        msRate, ms := MultisynthRecalc(freq, pll);
      }
    }

    /** Programs output clk. Exactly ten registers can change: the eight bytes of the output's parameter
        block, the byte after it, which becomes zero, and the output's control register. In particular
        no PLL parameter is ever written. */
    method SetFreq(freq: u32, pllFreq: u32, clk: nat)
      requires Valid() && clk < 8
      requires Divisible(freq, pllFreq, pllbFreq, clk)
      modifies this, regs
      ensures Valid()
      ensures forall r | 0 <= r < 256 && !(ParameterBase(clk) <= r <= ParameterBase(clk) + 8) && r != 16 + clk ::
                regs[r] == old(regs[r])
      ensures regs[ParameterBase(clk) + 8] == 0
      ensures regs[16 + clk] == if clk == 0 then 0x0c else 0x2c
      ensures Programmed(regs[ParameterBase(clk)..ParameterBase(clk) + 8], freq, pllFreq, old(pllbFreq), clk,
                         if clk == 0 then pllaFreq else pllbFreq)
      ensures if clk == 0 then pllbFreq == old(pllbFreq) else pllaFreq == old(pllaFreq)
    {
      hide Chosen, Divisible, Readable, Unpack, Pack, ParameterBase;
      var target := if clk == 0 then PllA else PllB;
      var pll, ms := ChooseDivider(freq, pllFreq, clk);
      var rate, pllReg := PllCalc(pll);
      WritePll(rate, pllReg, target);
      ProgramBlock(ms, target, clk);
      ChosenFits(freq, pllFreq, old(pllbFreq), clk, pll, ms);
    }

    /** Writes the parameter block, with the one byte too many, and points the output at its PLL. */
    method ProgramBlock(ms: RegSet, target: Pll, clk: nat)
      requires Valid() && clk < 8
      modifies regs
      ensures forall r | 0 <= r < 256 && !(ParameterBase(clk) <= r <= ParameterBase(clk) + 8) && r != 16 + clk ::
                regs[r] == old(regs[r])
      ensures regs[ParameterBase(clk) + 8] == 0
      ensures regs[16 + clk] == if target.PllA? then 0x0c else 0x2c
      ensures var block := regs[ParameterBase(clk)..ParameterBase(clk) + 8];
              block == Pack(ms) && (Unpack(block) == ms <==> ms.Fits())
    {
      var base := ParameterBase(clk);
      PackedWordsSurvive(ms);
      hide Pack, Unpack, ParameterBase;
      ghost var before := regs[..];
      WriteBulk(base, Pack(ms) + [0]);
      ghost var middle := regs[..];
      regs[CLK0_CTRL + clk] := if target.PllA? then 0x0c else 0x2c;
      ghost var after := regs[..];
      BlockWritten(before, middle, base, Pack(ms));
      ControlWritten(before, middle, after, base, Pack(ms), CLK0_CTRL + clk, regs[CLK0_CTRL + clk]);
      assert after[base..base + 8] == regs[base..base + 8];
    }
  }

  /** Nine bytes are in place, and the others are where they were. */
  lemma BlockWritten(before: seq<u8>, after: seq<u8>, base: nat, block: seq<u8>)
    requires |before| == 256 && |block| == 8 && base + 9 <= 256
    requires after == before[..base] + (block + [0]) + before[base + 9..]
    ensures |after| == 256 && after[base..base + 8] == block && after[base + 8] == 0
    ensures forall r | 0 <= r < 256 && !(base <= r <= base + 8) :: after[r] == before[r]
  {
  }

  lemma ControlWritten(before: seq<u8>, middle: seq<u8>, after: seq<u8>, base: nat, block: seq<u8>, ctl: nat, value: u8)
    requires |before| == |middle| == 256 && |block| == 8 && base + 9 <= 256 && ctl < base && after == middle[ctl := value]
    requires middle[base..base + 8] == block && middle[base + 8] == 0
    requires forall r | 0 <= r < 256 && !(base <= r <= base + 8) :: middle[r] == before[r]
    ensures after[base..base + 8] == block && after[base + 8] == 0 && after[ctl] == value
    ensures forall r | 0 <= r < 256 && !(base <= r <= base + 8) && r != ctl :: after[r] == before[r]
  {
  }
}
