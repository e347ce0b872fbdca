/** The transport-stream clock divider of the m88rs6060: the clock is derived from the PLL by a divisor that is
    split into two to four phase lengths, each stored in four bits with sixteen stored as zero
    (dvb-frontends/m88rs6060.c, rs6060_set_ts_mclk and rs6060_get_ts_mclk). */
module TsClock {
  import opened Arithmetic

  type nibble = x: int | 0 <= x < 16

  /** The length that four stored bits stand for. */
  function Length(f: nibble): nat {
    if f == 0 then 16 else f
  }

  /** The divisor that the getter reads back from the three divider registers. */
  function Divisor(reg1D: u8, reg1E: u8, reg1F: u8): (d: nat)
    ensures d > 0
  {
    var f3, f2, f1, f0 := Length(reg1E / 16), Length(reg1E % 16), Length(reg1F / 16), Length(reg1F % 16);
    match reg1D % 4
    case 3 => f3 + f2 + f1 + f0
    case 2 => f2 + f1 + f0
    case _ => f2 + f1
  }

  /** Unsigned division, rounding down. */
  function Quotient(x: nat, y: nat): (q: nat)
    requires y > 0
    ensures q * y <= x < q * y + y
  {
    Divided(x, y);
    x / y
  }

  function Clamp(x: nat, lo: nat, hi: nat): nat
    requires lo <= hi
  {
    if x < lo then lo else if x > hi then hi else x
  }

  /** The shortest phase is 8 in serial mode and 9 otherwise, and there are at least two phases. */
  function Shortest(serial: bool): nat {
    if serial then 16 else 18
  }

  /** A phase length as stored: sixteen becomes zero, a short one is stretched, an absent one stays zero. */
  function Stored(f: nat, least: nat): nibble
    requires f <= 16 && least < 16
  {
    if f == 16 then 0 else if f < least && f != 0 then least else f
  }

  /** How many clocks the phases make up, once stored and read back. */
  function StoredSum(least: nat, n: nat, g0: nat, g1: nat, g2: nat, g3: nat): nat
    requires g0 <= 16 && g1 <= 16 && g2 <= 16 && g3 <= 16 && least < 16
  {
    Length(Stored(g2, least)) + Length(Stored(g1, least))
    + (if n >= 3 then Length(Stored(g0, least)) else 0) + (if n == 4 then Length(Stored(g3, least)) else 0)
  }

  /** The used phases are within one clock of one another, and the others are zero. */
  predicate Balanced(n: nat, g0: nat, g1: nat, g2: nat, g3: nat) {
    && Abs(g1 - g2) <= 1
    && (if n >= 3 then Abs(g0 - g1) <= 1 && Abs(g0 - g2) <= 1 else g0 == 0)
    && (if n >= 4 then Abs(g3 - g0) <= 1 && Abs(g3 - g1) <= 1 && Abs(g3 - g2) <= 1 else g3 == 0)
  }

  /** n is the least number of phases that holds the divisor at sixteen clocks each; serial mode has no three. */
  predicate Fewest(n: nat, held: nat, serial: bool) {
    && 2 <= n <= 4 && !(serial && n == 3) && held <= 16 * n
    && (n > 2 ==> held > 16 * 2) && (n > 3 && !serial ==> held > 16 * 3)
  }

  /** Splits a divisor of at most 64 into n phases. */
  method SplitEvenly(div: nat, serial: bool) returns (n: nat, g0: nat, g1: nat, g2: nat, g3: nat)
    requires div <= 64
    ensures Fewest(n, div, serial) && g0 + g1 + g2 + g3 == div && Balanced(n, g0, g1, g2, g3)
  {
    g0, g1, g2, g3 := 0, 0, 0, 0;
    if div <= 32 {
      n := 2;
      g1 := div / 2;
      g2 := div - g1;
    } else if !serial && div <= 48 {
      n := 3;
      g0 := div / 3;
      g1 := (div - g0) / 2;
      g2 := div - g0 - g1;
    } else {
      n := 4;
      g0 := div / 4;
      g1 := (div - g0) / 3;
      g2 := (div - g0 - g1) / 2;
      g3 := div - g0 - g1 - g2;
    }
  }

  lemma AtMostSixteen(div: nat, serial: bool, n: nat, g0: nat, g1: nat, g2: nat, g3: nat)
    requires Fewest(n, div, serial) && g0 + g1 + g2 + g3 == div && Balanced(n, g0, g1, g2, g3)
    ensures g0 <= 16 && g1 <= 16 && g2 <= 16 && g3 <= 16
    ensures n > 2 ==> g0 >= 8 && g1 >= 8 && g2 >= 8 && (n == 4 ==> g3 >= 8)
    ensures n > 2 && !serial ==> g0 >= 9 && g1 >= 9 && g2 >= 9 && (n == 4 ==> g3 >= 9)
  {
  }

  lemma BalancedFits(div: nat, serial: bool, n: nat, g0: nat, g1: nat, g2: nat, g3: nat)
    requires div <= 64 && Fewest(n, div, serial) && g0 + g1 + g2 + g3 == div && Balanced(n, g0, g1, g2, g3)
    ensures g0 <= 16 && g1 <= 16 && g2 <= 16 && g3 <= 16
    ensures StoredSum(if serial then 8 else 9, n, g0, g1, g2, g3) == Clamp(div, Shortest(serial), 64) <==> div >= 2
  {
    AtMostSixteen(div, serial, n, g0, g1, g2, g3);
  }

  /** Splits a divisor, brought down to 64, into the fewest phases that hold it, as evenly as can be. What the phases
      add up to after storing is the divisor brought into range from below as well, except for the divisors 0 and 1,
      where an absent phase is stored as zero and read back as sixteen. */
  method SplitPhases(div: nat, serial: bool) returns (n: nat, g0: nat, g1: nat, g2: nat, g3: nat)
    ensures var held := if div > 64 then 64 else div;
            Fewest(n, held, serial) && g0 + g1 + g2 + g3 == held && Balanced(n, g0, g1, g2, g3)
    ensures g0 <= 16 && g1 <= 16 && g2 <= 16 && g3 <= 16
    ensures StoredSum(if serial then 8 else 9, n, g0, g1, g2, g3) == Clamp(div, Shortest(serial), 64) <==> div >= 2
  {
    if div <= 64 {
      n, g0, g1, g2, g3 := SplitEvenly(div, serial);
      BalancedFits(div, serial, n, g0, g1, g2, g3);
    } else {
      n, g0, g1, g2, g3 := 4, 16, 16, 16, 16;
    }
  }

  function Pair(high: int, low: int): int {
    16 * high + low
  }

  /** The control register with the phase count in its low two bits and its top bit set. */
  function Control(reg: u8, n: nat): (r: u8)
    requires 2 <= n <= 4
    ensures r % 4 == n - 1 && r / 128 == 1 && r % 128 / 4 == reg % 128 / 4
  {
    ControlBits(reg, n);
    128 + reg % 128 / 4 * 4 + (n - 1)
  }

  lemma ControlBits(reg: u8, n: nat)
    requires 2 <= n <= 4
    ensures var r := 128 + reg % 128 / 4 * 4 + (n - 1);
            128 <= r < 256 && r % 4 == n - 1 && r / 128 == 1 && r % 128 / 4 == reg % 128 / 4
  {
    var middle := reg % 128 / 4;
    assert 0 <= middle < 32;
    var r := 128 + middle * 4 + (n - 1);
    DivUnique(r, 4, 32 + middle);
    DivUnique(r, 128, 1);
    DivUnique(r - 128, 4, middle);
  }

  /** What the getter makes of the stored phases. */
  lemma StoredPhasesAreRead(control: u8, least: nat, n: nat, g0: nat, g1: nat, g2: nat, g3: nat)
    requires g0 <= 16 && g1 <= 16 && g2 <= 16 && g3 <= 16 && least < 16 && 2 <= n <= 4 && control % 4 == n - 1
    ensures var f0, f1, f2, f3 := Stored(g0, least), Stored(g1, least), Stored(g2, least), Stored(g3, least);
            && 0 <= Pair(f3, f2) < 256 && 0 <= Pair(f1, f0) < 256
            && Divisor(control, Pair(f3, f2), Pair(f1, f0)) == StoredSum(least, n, g0, g1, g2, g3)
  {
    var f0, f1, f2, f3 := Stored(g0, least), Stored(g1, least), Stored(g2, least), Stored(g3, least);
    assert Pair(f3, f2) / 16 == f3 && Pair(f3, f2) % 16 == f2;
    assert Pair(f1, f0) / 16 == f1 && Pair(f1, f0) % 16 == f0;
  }

  /** When the divisor needed no clamping, the clock read back is at least the one asked for and exceeds it by
      less than one part in the divisor. */
  lemma ReadBack(clock: nat, mclk: nat, divisor: nat)
    requires 1 <= mclk && divisor == Quotient(clock, mclk) >= 1
    ensures mclk <= Quotient(clock, divisor) && Quotient(clock, divisor) * divisor < mclk * (divisor + 1)
  {
    var back := Quotient(clock, divisor);
    var low := divisor * mclk;
    assert low <= clock < low + mclk && back * divisor <= clock < back * divisor + divisor;
    if back < mclk { NextMultiple(back, mclk, divisor); }
    assert mclk * (divisor + 1) == low + mclk;
  }

  function Corrected(mclk: u32, factor: nat): u32
    requires factor <= 99
  {
    mclk * factor % 0x1_0000_0000 / 96
  }

  /** While the product fits 32 bits, the corrected clock is factor/96 of the request, rounded down. */
  lemma CorrectedExactly(mclk: u32, factor: nat)
    requires factor <= 99 && mclk * factor < 0x1_0000_0000
    ensures 96 * Corrected(mclk, factor) <= mclk * factor < 96 * Corrected(mclk, factor) + 96
  {
    var product := mclk * factor;
    assert product % 0x1_0000_0000 == product;
  }

  /** The number of phases, less one, as the control register stores it. */
  lemma PhaseCount(div: nat, serial: bool, n: nat)
    requires Fewest(n, if div > 64 then 64 else div, serial)
    ensures n - 1 == if div <= 32 then 1 else if !serial && div <= 48 then 2 else 3
  {
  }

  class Demod {
    const regs: array<u8>
    const serial: bool

    constructor (serial: bool)
      ensures regs.Length == 256 && fresh(regs) && this.serial == serial
    {
      regs := new u8[256];
      this.serial := serial;
    }

    /** The clock that the divisor divides, in kHz: 9000 times the feedback divider, times four. */
    function PllClock(): (f: nat)
      requires regs.Length == 256
      reads this, regs
      ensures f > 0
    {
      var reg15: int, reg16: int := regs[0x15], regs[0x16];
      9000 * (reg15 % 2 * 0x100 + reg16 + 32) * 4
    }

    /** The requested clock, corrected for the ADC clock unless the stream is serial. */
    function Scaled(mclk: u32): (s: u32)
      requires regs.Length == 256
      reads this, regs
      ensures serial ==> s == mclk
      ensures !serial && regs[0x16] == 92 ==> s == Corrected(mclk, 93)
      ensures !serial && regs[0x16] == 100 ==> s == Corrected(mclk, 99)
      ensures !serial && regs[0x16] != 92 && regs[0x16] != 100 ==> s == Corrected(mclk, 96)
    {
      if serial then mclk else Corrected(mclk, if regs[0x16] == 92 then 93 else if regs[0x16] == 100 then 99 else 96)
    }

    /** The divisor asked for. */
    function Wanted(mclk: u32): nat
      requires regs.Length == 256 && Scaled(mclk) != 0
      reads this, regs
    {
      Quotient(PllClock(), Scaled(mclk))
    }

    /** The divisor that the registers hold. */
    function Held(): (d: nat)
      requires regs.Length == 256
      reads this, regs
      ensures d > 0
    {
      Divisor(regs[0x1d], regs[0x1e], regs[0x1f])
    }

    method SetTsMclk(mclk: u32)
      requires regs.Length == 256 && Scaled(mclk) != 0
      modifies regs
      ensures Held() == Clamp(old(Wanted(mclk)), Shortest(serial), 64) <==> old(Wanted(mclk)) >= 2
      ensures regs[0x1d] % 4 == (if old(Wanted(mclk)) <= 32 then 1 else if !serial && old(Wanted(mclk)) <= 48 then 2 else 3)
      ensures (regs[0x1d] % 4 < 3 ==> regs[0x1e] / 16 == 0) && (regs[0x1d] % 4 < 2 ==> regs[0x1f] % 16 == 0)
      ensures regs[0x1d] / 128 == 1 && regs[0x1d] % 128 / 4 == old(regs[0x1d]) % 128 / 4
      ensures forall r | 0 <= r < 256 && r != 0x1d && r != 0x1e && r != 0x1f :: regs[r] == old(regs[r])
    {
      var n, g0, g1, g2, g3 := SplitPhases(Wanted(mclk), serial);
      PhaseCount(Wanted(mclk), serial, n);
      hide Fewest, Divisor, Quotient, Clamp, Shortest, StoredSum;
      var least := if serial then 8 else 9;
      var f0, f1, f2, f3 := Stored(g0, least), Stored(g1, least), Stored(g2, least), Stored(g3, least);
      regs[0x1d] := Control(regs[0x1d], n);
      StoredPhasesAreRead(regs[0x1d], least, n, g0, g1, g2, g3);
      regs[0x1e] := Pair(f3, f2);
      regs[0x1f] := Pair(f1, f0);
    }

    method GetTsMclk() returns (mclk: nat)
      requires regs.Length == 256
      ensures var high: int, low: int := regs[0x15] % 2, regs[0x16];
              mclk * Held() <= 36000 * (0x100 * high + low + 32) < mclk * Held() + Held()
      ensures mclk == Quotient(PllClock(), Held())
    {
      mclk := Quotient(PllClock(), Held());
    }

    /** Setting a clock and reading it back. */
    method SetAndGet(mclk: u32) returns (back: nat)
      requires regs.Length == 256 && Scaled(mclk) != 0
      modifies regs
      ensures Shortest(serial) <= old(Wanted(mclk)) <= 64 ==>
                var asked, divisor := old(Scaled(mclk)), old(Wanted(mclk));
                asked <= back && back * divisor < asked * (divisor + 1)
    {
      ghost var clock, asked := PllClock(), Scaled(mclk);
      SetTsMclk(mclk);
      back := GetTsMclk();
      if Shortest(serial) <= old(Wanted(mclk)) <= 64 {
        DivUnique(clock, Held(), back);
        ReadBack(clock, asked, old(Wanted(mclk)));
      }
    }
  }
}
