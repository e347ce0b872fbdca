/** The scrambling register runs through all 2^18 - 1 nonzero states before it repeats: two codes have the same
    start state exactly if they differ by a multiple of that number. */
module GoldPeriod {
  import opened Arithmetic
  import opened GoldCode
  import opened GoldSequence
  import opened GoldWords

  const PERIOD := 262143

  // ---------- five powers of x ----------

  lemma Pow511()
    ensures PowB(511) == 0xa0a0
  {
    hide PowB;
    PowZero();
    NextPower(0, 0x1, 0x1, 0x0, 0x1, 1, 0x2);
    NextPower(1, 0x2, 0x4, 0x0, 0x4, 1, 0x8);
    NextPower(3, 0x8, 0x40, 0x0, 0x40, 1, 0x80);
    NextPower(7, 0x80, 0x4000, 0x0, 0x4000, 1, 0x8000);
    NextPower(15, 0x8000, 0x0, 0x1000, 0x1102, 1, 0x2204);
    NextPower(31, 0x2204, 0x10, 0x101, 0x8191, 1, 0x10322);
    NextPower(63, 0x10322, 0x10404, 0x4001, 0x1408d, 1, 0x2811a);
    NextPower(127, 0x2811a, 0x10144, 0x11000, 0x66, 1, 0xcc);
    NextPower(255, 0xcc, 0x5050, 0x0, 0x5050, 1, 0xa0a0);
  }

  lemma PowPeriod()
    ensures PowB(262143) == 0x1
  {
    hide PowB;
    Pow511();
    NextPower(511, 0xa0a0, 0x4400, 0x1100, 0xd402, 1, 0x1a804);
    NextPower(1023, 0x1a804, 0x10, 0x5110, 0xdc0a, 1, 0x1b814);
    NextPower(2047, 0x1b814, 0x110, 0x5150, 0xfd4a, 1, 0x1fa94);
    NextPower(4095, 0x1fa94, 0x4110, 0x5551, 0x2b9cb, 1, 0x17317);
    NextPower(8191, 0x17317, 0x10115, 0x4541, 0x3e0dc, 1, 0x3c139);
    NextPower(16383, 0x3c139, 0x10541, 0x15400, 0x2446b, 1, 0x8857);
    NextPower(32767, 0x8857, 0x1115, 0x1010, 0x807, 1, 0x100e);
    NextPower(65535, 0x100e, 0x54, 0x40, 0x2014, 1, 0x4028);
    NextPower(131071, 0x4028, 0x440, 0x400, 0x20040, 1, 0x1);
  }

  lemma Pow341()
    ensures PowB(341) == 0x2ae3c
  {
    hide PowB;
    PowZero();
    NextPower(0, 0x1, 0x1, 0x0, 0x1, 1, 0x2);
    NextPower(1, 0x2, 0x4, 0x0, 0x4, 0, 0x4);
    NextPower(2, 0x4, 0x10, 0x0, 0x10, 1, 0x20);
    NextPower(5, 0x20, 0x400, 0x0, 0x400, 0, 0x400);
    NextPower(10, 0x400, 0x0, 0x4, 0x204, 1, 0x408);
    NextPower(21, 0x408, 0x40, 0x4, 0x244, 0, 0x244);
    NextPower(42, 0x244, 0x1010, 0x1, 0x1091, 1, 0x2122);
    NextPower(85, 0x2122, 0x10404, 0x100, 0x18504, 0, 0x18504);
    NextPower(170, 0x18504, 0x10010, 0x5004, 0x1571e, 1, 0x2ae3c);
  }

  lemma PowThird()
    ensures PowB(87381) == 0x1bf9b
  {
    hide PowB;
    Pow341();
    NextPower(341, 0x2ae3c, 0x550, 0x11115, 0x18fe7, 0, 0x18fe7);
    NextPower(682, 0x18fe7, 0x15415, 0x5015, 0x10b8a, 1, 0x21714);
    NextPower(1365, 0x21714, 0x10110, 0x10045, 0x33f5, 0, 0x33f5);
    NextPower(2730, 0x33f5, 0x15511, 0x141, 0x1f4d0, 1, 0x3e9a0);
    NextPower(5461, 0x3e9a0, 0x14400, 0x15510, 0x28c3a, 0, 0x28c3a);
    NextPower(10922, 0x28c3a, 0x544, 0x11014, 0x10e72, 1, 0x21ce4);
    NextPower(21845, 0x21ce4, 0x5410, 0x10054, 0x16e64, 0, 0x16e64);
    NextPower(43690, 0x16e64, 0x1410, 0x4515, 0x2df8d, 1, 0x1bf9b);
  }

  lemma Pow292()
    ensures PowB(292) == 0x20d01
  {
    hide PowB;
    PowZero();
    NextPower(0, 0x1, 0x1, 0x0, 0x1, 1, 0x2);
    NextPower(1, 0x2, 0x4, 0x0, 0x4, 0, 0x4);
    NextPower(2, 0x4, 0x10, 0x0, 0x10, 0, 0x10);
    NextPower(4, 0x10, 0x100, 0x0, 0x100, 1, 0x200);
    NextPower(9, 0x200, 0x0, 0x1, 0x81, 0, 0x81);
    NextPower(18, 0x81, 0x4001, 0x0, 0x4001, 0, 0x4001);
    NextPower(36, 0x4001, 0x1, 0x400, 0x20401, 1, 0x883);
    NextPower(73, 0x883, 0x4005, 0x10, 0x4815, 0, 0x4815);
    NextPower(146, 0x4815, 0x111, 0x410, 0x20d01, 0, 0x20d01);
  }

  lemma PowSeventh()
    ensures PowB(37449) == 0x370b
  {
    hide PowB;
    Pow292();
    NextPower(292, 0x20d01, 0x10001, 0x10014, 0x1a35, 1, 0x346a);
    NextPower(585, 0x346a, 0x1444, 0x144, 0xb700, 0, 0xb700);
    NextPower(1170, 0xb700, 0x10000, 0x1145, 0x1b2c7, 0, 0x1b2c7);
    NextPower(2340, 0x1b2c7, 0x5015, 0x5141, 0xa4de, 1, 0x149bc);
    NextPower(4681, 0x149bc, 0x14550, 0x4410, 0x30d48, 0, 0x30d48);
    NextPower(9362, 0x30d48, 0x11040, 0x14014, 0x4e7c, 0, 0x4e7c);
    NextPower(18724, 0x4e7c, 0x1550, 0x415, 0x21bc5, 1, 0x370b);
  }

  lemma Pow431()
    ensures PowB(431) == 0x2899e
  {
    hide PowB;
    PowZero();
    NextPower(0, 0x1, 0x1, 0x0, 0x1, 1, 0x2);
    NextPower(1, 0x2, 0x4, 0x0, 0x4, 1, 0x8);
    NextPower(3, 0x8, 0x40, 0x0, 0x40, 0, 0x40);
    NextPower(6, 0x40, 0x1000, 0x0, 0x1000, 1, 0x2000);
    NextPower(13, 0x2000, 0x0, 0x100, 0x8100, 0, 0x8100);
    NextPower(26, 0x8100, 0x10000, 0x1000, 0x11102, 1, 0x22204);
    NextPower(53, 0x22204, 0x10, 0x10101, 0x191b1, 1, 0x32362);
    NextPower(107, 0x32362, 0x11404, 0x14101, 0xc1ad, 1, 0x1835a);
    NextPower(215, 0x1835a, 0x11144, 0x5001, 0x144cf, 1, 0x2899e);
  }

  lemma PowNineteenth()
    ensures PowB(13797) == 0x1acdd
  {
    hide PowB;
    Pow431();
    NextPower(431, 0x2899e, 0x14154, 0x11010, 0x4866, 0, 0x4866);
    NextPower(862, 0x4866, 0x1414, 0x410, 0x21804, 0, 0x21804);
    NextPower(1724, 0x21804, 0x10, 0x10050, 0x13860, 1, 0x270c0);
    NextPower(3449, 0x270c0, 0x5000, 0x10540, 0x3e560, 0, 0x3e560);
    NextPower(6898, 0x3e560, 0x11400, 0x15504, 0x2d62e, 1, 0x1acdd);
  }

  lemma Pow448()
    ensures PowB(448) == 0x33767
  {
    hide PowB;
    PowZero();
    NextPower(0, 0x1, 0x1, 0x0, 0x1, 1, 0x2);
    NextPower(1, 0x2, 0x4, 0x0, 0x4, 1, 0x8);
    NextPower(3, 0x8, 0x40, 0x0, 0x40, 1, 0x80);
    NextPower(7, 0x80, 0x4000, 0x0, 0x4000, 0, 0x4000);
    NextPower(14, 0x4000, 0x0, 0x400, 0x20400, 0, 0x20400);
    NextPower(28, 0x20400, 0x0, 0x10004, 0x11224, 0, 0x11224);
    NextPower(56, 0x11224, 0x410, 0x4041, 0x60d9, 0, 0x60d9);
    NextPower(112, 0x60d9, 0x5141, 0x500, 0x2d441, 0, 0x2d441);
    NextPower(224, 0x2d441, 0x1001, 0x11444, 0x33767, 0, 0x33767);
  }

  lemma PowSeventyThird()
    ensures PowB(3591) == 0xb6c2
  {
    hide PowB;
    Pow448();
    NextPower(448, 0x33767, 0x11415, 0x14145, 0xe3f8, 1, 0x1c7f0);
    NextPower(897, 0x1c7f0, 0x15500, 0x5405, 0x3068f, 1, 0x20d9f);
    NextPower(1795, 0x20d9f, 0x14155, 0x10014, 0x5b61, 1, 0xb6c2);
  }

  // ---------- the register repeats after PERIOD steps ----------

  predicate AgreeAt(x: Bits, a: nat, b: nat, j: nat) {
    x(a + j) == x(b + j)
  }

  /** The bits that states have in common with those n steps later. */
  lemma MatchesMoved(x: Bits, a: nat, b: nat, w: word)
    requires Matches(x, a, w) && forall j: nat | j < 18 :: AgreeAt(x, a, b, j)
    ensures Matches(x, b, w)
  {
    forall p: nat | p < 3 ensures Six(x, b + 6 * p, Part(w, p)) {
      var q := 6 * p;
      assert Six(x, a + q, Part(w, p));
      assert AgreeAt(x, a, b, q) && AgreeAt(x, a, b, q + 1) && AgreeAt(x, a, b, q + 2);
      assert AgreeAt(x, a, b, q + 3) && AgreeAt(x, a, b, q + 4) && AgreeAt(x, a, b, q + 5);
    }
  }

  lemma BitsMoved(x: Bits, a: nat, b: nat, w: word, j: nat)
    requires Matches(x, a, w) && Matches(x, b, w) && j < 18
    ensures AgreeAt(x, a, b, j)
  {
    var p := j / 6;
    assert Six(x, a + 6 * p, Part(w, p)) && Six(x, b + 6 * p, Part(w, p));
    assert j == 6 * p + j % 6;
  }

  lemma SequenceRepeats(x: Bits, k: nat)
    requires Obeys(x)
    ensures x(k + PERIOD) == x(k)
  {
    PowPeriod();
    hide PowB, DotTo;
    JumpByWord(x, PERIOD, k);
    assert Bit(0) == 1;
    DotBit(x, k, 0, 18);
  }

  lemma StateRepeats(n: nat)
    ensures StateAt(n + PERIOD) == StateAt(n)
  {
    var x := ScramblingBits();
    StateMatches(x, n);
    StateMatches(x, n + PERIOD);
    var later := n + PERIOD;
    forall j: nat | j < 18 ensures AgreeAt(x, n, later, j) {
      SequenceRepeats(x, n + j);
    }
    MatchesMoved(x, n, n + PERIOD, StateAt(n));
    SameBits(x, n + PERIOD, StateAt(n), StateAt(n + PERIOD));
  }

  // ---------- and not after a third, a seventh, a nineteenth or a seventy-third of them ----------

  lemma StartsWith(x: Bits)
    requires Starts(x)
    ensures forall j: nat | 1 <= j < 18 :: !x(j)
    ensures x(0) && x(18)
  {
    forall j: nat | j < 18 ensures x(j) == (j == 0) {
      StartBits(x, j);
    }
    assert ObeysAt(x, 0);
  }

  /** A state whose bits differ somewhere from those of the first state is not the first state. */
  lemma NotFirst(x: Bits, n: nat, j: nat)
    requires Starts(x) && 1 <= j < 18 && x(j + n)
    ensures StateAt(n) != 1
  {
    StartsWith(x);
    StateMatches(x, n);
    if StateAt(n) == 1 {
      BitsMoved(x, 0, n, 1, j);
    }
  }

  /** Read from position j, the first bits of the sequence single out bit 18 - j of a word. */
  lemma {:induction false} DotWindow(x: Bits, j: nat, w: word, m: nat)
    requires Starts(x) && 1 <= j <= 10 && m <= 18
    ensures DotTo(x, j, w, m) == (m > 18 - j && Has(w, 18 - j))
  {
    hide Has;
    if m > 0 {
      StartsWith(x);
      DotWindow(x, j, w, m - 1);
      var k := j + (m - 1);
      if k > 18 {
        assert ObeysAt(x, k - 18);
      }
    }
  }

  lemma NotAfter(n: nat, w: word, j: nat)
    requires PowB(n) == w && 1 <= j <= 10 && Has(w, 18 - j)
    ensures StateAt(n) != 1
  {
    hide PowB, Has, DotTo;
    var x := ScramblingBits();
    JumpByWord(x, n, j);
    DotWindow(x, j, w, 18);
    NotFirst(x, n, j);
  }

  lemma NotAfterParts()
    ensures StateAt(PERIOD / 3) != 1 && StateAt(PERIOD / 7) != 1
    ensures StateAt(PERIOD / 19) != 1 && StateAt(PERIOD / 73) != 1
  {
    PowThird();
    PowSeventh();
    PowNineteenth();
    PowSeventyThird();
    hide PowB, StateAt;
    NotAfter(87381, 0x1bf9b, 2);
    NotAfter(37449, 0x370b, 5);
    NotAfter(13797, 0x1acdd, 2);
    NotAfter(3591, 0xb6c2, 3);
  }

  // ---------- returning to the first state ----------

  lemma {:induction false} ReturnShifts(d: nat, n: nat)
    requires StateAt(d) == 1
    ensures StateAt(d + n) == StateAt(n)
  {
    if n > 0 {
      ReturnShifts(d, n - 1);
      assert StateAt(d + n) == Step(StateAt(d + n - 1));
    }
  }

  /** Equal states come from equal states, back to the first one. */
  lemma {:induction false} EqualStatesReturn(a: nat, b: nat)
    requires a <= b && StateAt(a) == StateAt(b)
    ensures StateAt(b - a) == 1
    decreases a
  {
    if a > 0 {
      StepBack(StateAt(a - 1));
      StepBack(StateAt(b - 1));
      EqualStatesReturn(a - 1, b - 1);
    }
  }

  lemma {:induction false} ReturnMultiple(d: nat, k: nat)
    requires StateAt(d) == 1
    ensures StateAt(k * d) == 1
  {
    if k > 0 {
      ReturnMultiple(d, k - 1);
      ReturnShifts(d, (k - 1) * d);
      assert d + (k - 1) * d == k * d;
    }
  }

  /** A return within the period gives one whose length divides the period. */
  lemma {:induction false} ReturnDivides(d: nat) returns (e: nat, m: nat)
    requires 0 < d < PERIOD && StateAt(d) == 1
    ensures StateAt(e) == 1 && m * e == PERIOD && m > 1
    decreases d
  {
    var k, r := PERIOD / d, PERIOD % d;
    assert PERIOD == k * d + r;
    if r == 0 {
      e, m := d, k;
      assert k <= 1 ==> k * d <= d;
    } else {
      StateRepeats(0);
      ReturnMultiple(d, k);
      ReturnShifts(k * d, r);
      e, m := ReturnDivides(r);
    }
  }

  // ---------- the prime factors of the period ----------

  predicate Splits(p: nat, j: nat)
    requires j > 0
  {
    p % j == 0
  }

  ghost predicate Prime(p: nat) {
    p >= 2 && forall j | 2 <= j < p :: !Splits(p, j)
  }

  /** A prime that divides r·s but not r divides s: p·s and r·s are multiples, hence so is (p mod r)·s. */
  lemma {:induction false} PrimeDivides(p: nat, r: nat, s: int, k: int)
    requires Prime(p) && 0 < r < p && r * s == k * p
    ensures exists t: int :: s == t * p
    decreases r
  {
    if r == 1 {
      assert s == k * p;
    } else {
      assert !Splits(p, r);
      var q, rest := p / r, p % r;
      assert p == q * r + rest;
      assert rest * s == p * s - q * (r * s);
      assert q * (r * s) == q * k * p;
      assert p * s - q * k * p == (s - q * k) * p;
      PrimeDivides(p, rest, s, s - q * k);
    }
  }

  /** If the prime p divides m·e but not m, then it divides e. */
  lemma TakeOut(p: nat, m: nat, e: nat, n: nat) returns (f: nat)
    requires Prime(p) && m % p != 0 && m * e == n * p
    ensures e == f * p && m * f == n
  {
    var a, r := m / p, m % p;
    assert m == a * p + r;
    assert r * e == n * p - a * p * e && a * p * e == a * e * p;
    PrimeDivides(p, r, e, n - a * e) by {
      assert (n - a * e) * p == n * p - a * e * p;
    }
    var t: int :| e == t * p;
    assert t <= -1 ==> t * p <= 0 - p;
    f := t;
    assert m * f * p == n * p;
    Cancel(m * f, n, p);
  }

  lemma Cancel(a: int, b: int, p: nat)
    requires p > 0 && a * p == b * p
    ensures a == b
  {
    if a < b { NextMultiple(a, b, p); }
    if b < a { NextMultiple(b, a, p); }
  }

  /** One of two factors of such a small number is at most eight. */
  lemma SmallFactors(p: nat, j: nat, k: nat)
    requires p in {3, 7, 19, 73} && j * k == p && j >= 2
    ensures j == p
  {
    assert j >= 9 && k >= 9 ==> j * k >= 81;
    assert j <= 8 ==> j == 2 || j == 3 || j == 4 || j == 5 || j == 6 || j == 7 || j == 8;
    assert k <= 8 ==> k == 0 || k == 1 || k == 2 || k == 3 || k == 4 || k == 5 || k == 6 || k == 7 || k == 8;
  }

  lemma PrimeFactor(p: nat)
    requires p in {3, 7, 19, 73}
    ensures Prime(p)
  {
    forall j | 2 <= j < p ensures !Splits(p, j) {
      if Splits(p, j) {
        SmallFactors(p, j, p / j);
      }
    }
  }

  /** A proper divisor of the period divides one of its four maximal divisors. */
  lemma MaximalDivisor(m: nat, e: nat)
    requires m * e == PERIOD && m > 1
    ensures m % 3 == 0 || m % 7 == 0 || m % 19 == 0 || m % 73 == 0
  {
    if m % 3 != 0 && m % 7 != 0 && m % 19 != 0 && m % 73 != 0 {
      PrimeFactor(3);
      PrimeFactor(7);
      PrimeFactor(19);
      PrimeFactor(73);
      var e1 := TakeOut(3, m, e, 87381);
      var e2 := TakeOut(3, m, e1, 29127);
      var e3 := TakeOut(3, m, e2, 9709);
      var e4 := TakeOut(7, m, e3, 1387);
      var e5 := TakeOut(19, m, e4, 73);
      var e6 := TakeOut(73, m, e5, 1);
      Whole(m, e6);
    }
  }

  lemma Whole(m: nat, e: nat)
    requires m * e == 1
    ensures m == 1
  {
  }

  lemma NoReturnThrough(m: nat, e: nat, p: nat)
    requires m * e == PERIOD && p >= 1 && m % p == 0 && StateAt(e) == 1
    ensures PERIOD % p == 0 && StateAt(PERIOD / p) == 1
  {
    var k := m / p;
    assert m == k * p;
    assert k * e * p == PERIOD;
    ReturnMultiple(e, k);
    assert PERIOD / p == k * e by { DivUnique(k * e * p, p, k * e); }
  }

  /** The register does not return to its first state before PERIOD steps. */
  lemma NoEarlyReturn(d: nat)
    requires 0 < d < PERIOD
    ensures StateAt(d) != 1
  {
    if StateAt(d) == 1 {
      var e, m := ReturnDivides(d);
      MaximalDivisor(m, e);
      NotAfterParts();
      var p := if m % 3 == 0 then 3 else if m % 7 == 0 then 7 else if m % 19 == 0 then 19 else 73;
      NoReturnThrough(m, e, p);
    }
  }

  // ---------- codes ----------

  lemma {:induction false} StateModulo(n: nat, k: nat)
    ensures StateAt(n + k * PERIOD) == StateAt(n)
    decreases k
  {
    if k > 0 {
      StateModulo(n, k - 1);
      StateRepeats(n + (k - 1) * PERIOD);
    }
  }

  /** States repeat with the period and only with it. */
  lemma StatesEqualExactly(a: nat, b: nat)
    ensures StateAt(a) == StateAt(b) <==> a % PERIOD == b % PERIOD
  {
    var m, r := DivMod(a, PERIOD);
    var n, s := DivMod(b, PERIOD);
    hide StateAt;
    StateModulo(r, m);
    StateModulo(s, n);
    if r != s && StateAt(r) == StateAt(s) {
      var low, high := if r < s then r else s, if r < s then s else r;
      EqualStatesReturn(low, high);
      NoEarlyReturn(high - low);
    }
  }

  lemma {:induction false} SameDigits(x: Bits, a: nat, b: nat, m: nat, j: nat)
    requires Digits(x, a, m) == Digits(x, b, m) && j < m
    ensures AgreeAt(x, a, b, j)
    decreases m
  {
    if j > 0 {
      SameDigits(x, a + 1, b + 1, m - 1, j - 1);
      assert AgreeAt(x, a + 1, b + 1, j - 1);
    }
  }

  lemma {:induction false} DigitsOf(x: Bits, a: nat, b: nat, m: nat)
    requires forall j: nat | j < m :: AgreeAt(x, a, b, j)
    ensures Digits(x, a, m) == Digits(x, b, m)
    decreases m
  {
    if m > 0 {
      assert AgreeAt(x, a, b, 0);
      var a', b' := a + 1, b + 1;
      forall j: nat | j < m - 1 ensures AgreeAt(x, a', b', j) {
        assert AgreeAt(x, a, b, j + 1);
      }
      DigitsOf(x, a + 1, b + 1, m - 1);
    }
  }

  /** Both drivers give two indices the same scrambling code exactly if they are equal modulo 2^18 - 1: the
      262143 codes from 0 up are all different. */
  lemma CodesEqualExactly(a: nat, b: nat)
    ensures GoldNumber(a) == GoldNumber(b) <==> a % PERIOD == b % PERIOD
  {
    var x := ScramblingBits();
    StatesEqualExactly(a, b);
    StateMatches(x, a);
    StateMatches(x, b);
    if GoldNumber(a) == GoldNumber(b) {
      forall j: nat | j < 18 ensures AgreeAt(x, a, b, j) {
        SameDigits(x, a, b, 18, j);
      }
      MatchesMoved(x, a, b, StateAt(a));
      SameBits(x, b, StateAt(a), StateAt(b));
    } else if StateAt(a) == StateAt(b) {
      forall j: nat | j < 18 ensures AgreeAt(x, a, b, j) {
        BitsMoved(x, a, b, StateAt(a), j);
      }
      DigitsOf(x, a, b, 18);
    }
  }
}
